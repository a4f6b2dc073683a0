/** When a device is replaced twice.  Regeneration and transfer look a device up by its public id on
    either channel, and a device of the feed can be enabled after it has been replaced. */
module Forks {
  import opened Text
  import opened Canonical
  import opened DevicePolicy
  import opened DeviceTable
  import opened Registry
  import opened Lifecycle
  import opened Growth
  import opened Uniqueness
  import opened Ownership
  import opened IdentityRows
  import opened Reports

  predicate Replaced(t: Table, k: nat) {
    exists i :: 0 <= i < |t| && t[i].origin.Replaces(k)
  }

  /** No two rows replace the same row. */
  predicate NoForks(t: Table) {
    forall i, j :: 0 <= i < j < |t| && !t[i].origin.Issued? ==> !t[j].origin.Replaces(t[i].origin.source)
  }

  /** Where replacements come from. */
  predicate Sourced(t: Table) {
    forall i :: 0 <= i < |t| && !t[i].origin.Issued? ==> t[i].origin.source < |t|
  }

  function Reissued(op: Operation): bool {
    op.OpRegenerate? || op.OpTransfer?
  }

  /** What a regeneration asks of the state it finds: an entitlement in force, an unrevoked device of
      either channel, a slot left once that device has given up its own, and an unused public id. */
  predicate MayReissue(db: Db, guid: Guid, publicId: string, draw: Draw, now: Time) {
    && guid in db.subscriptions && guid in db.entitlements
    && ReissueRefusal(db.entitlements[guid], now).None?
    && var found := FindDevice(db.devices, guid, publicId);
       && found.Some? && db.devices[found.value].revokedAt.None?
       && CountOccupied(db.devices, guid, now) - (if Live(db.devices[found.value], now) then 1 else 0)
          < db.entitlements[guid].max
       && !PublicIdTaken(db.devices, draw.publicId)
  }

  /** A transfer also asks for a platform, for an operation id nobody has used, and for the cooldown to
      have passed. */
  predicate MayTransfer(
      db: Db, cfg: Config, guid: Guid, publicId: string, operationId: Option<string>, platform: Option<Platform>,
      draw: Draw, now: Time)
  {
    && operationId.Some? && platform.Some? && operationId.value !in db.transfers
    && MayReissue(db, guid, publicId, draw, now)
    && !CoolingDown(db.devices[FindDevice(db.devices, guid, publicId).value], cfg, now)
  }

  predicate MayReplace(db: Db, e: Event) {
    match e.op
    case OpRegenerate(_, guid, publicId, draw) => MayReissue(db, guid, publicId, draw, e.at)
    case OpTransfer(cfg, guid, publicId, operationId, platform, draw) =>
      MayTransfer(db, cfg, guid, publicId, operationId, platform, draw, e.at)
    case _ => false
  }

  /** A call that meets its guard on a device that has been replaced already. */
  predicate ReplacesAgain(db: Db, e: Event) {
    MayReplace(db, e) && Replaced(db.devices, FindDevice(db.devices, e.op.guid, e.op.publicId).value)
  }

  /* ---------- what a step adds ---------- */

  lemma IssuedIsFresh(t: Table, cfg: Config, guid: Guid, max: int, r: TokenRequest, draw: Draw, now: Time)
    ensures
      var u := IssueToken(t, cfg, guid, max, r, draw, now).0;
      |u| > |t| ==> u[|t|].origin.Issued?
  {
  }

  lemma CreatedIsFresh(db: Db, cfg: Config, guid: Guid, r: TokenRequest, draw: Draw, now: Time)
    ensures
      var u := CreateToken(db, cfg, guid, r, draw, now).db.devices;
      |u| > |db.devices| ==> u[|db.devices|].origin.Issued?
  {
    if guid in db.entitlements {
      IssuedIsFresh(ExpirePending(db.devices, guid, now), cfg, guid, db.entitlements[guid].max, r, draw, now);
    }
  }

  lemma ResolvedIsFresh(
      db: Db, cfg: Config, guid: Guid, hasToken: bool, secretVerified: bool, p: Presented,
      displayName: string, draw: Draw, now: Time)
    ensures
      var u := Resolve(db, cfg, guid, hasToken, secretVerified, p, displayName, draw, now).db.devices;
      |u| > |db.devices| ==> u[|db.devices|].origin.Issued?
  {
  }

  lemma TakenIsNotUnique(t: Table, d: Device)
    requires PublicIdTaken(t, d.publicId)
    ensures !UniqueIndexes(t + [d])
  {
    var i :| 0 <= i < |t| && t[i].publicId == d.publicId;
    assert Clash((t + [d])[i], (t + [d])[|t|]);
  }

  lemma RetiredNames(t: Table, i: nat, guid: Guid, reason: Reason, now: Time, publicId: string)
    requires UniqueIndexes(t) && i < |t|
    ensures PublicIdTaken(Retire(t, i, guid, reason, now), publicId) <==> PublicIdTaken(t, publicId)
  {
    RetireIndexed(t, i, guid, reason, now);
    var u := Retire(t, i, guid, reason, now);
    if PublicIdTaken(t, publicId) {
      var j :| 0 <= j < |t| && t[j].publicId == publicId;
      assert SameIndexed(t[j], u[j]);
    }
    if PublicIdTaken(u, publicId) {
      var j :| 0 <= j < |u| && u[j].publicId == publicId;
      assert SameIndexed(t[j], u[j]);
    }
  }

  /** Retiring a row and inserting its replacement finds room and keeps the indexes exactly under the
      last two conditions of the guard. */
  lemma ReplacementFits(t: Table, i: nat, guid: Guid, reason: Reason, max: int, now: Time, d: Device)
    requires UniqueIndexes(t) && i < |t| && t[i].sub == guid
    requires d.sub == t[i].sub && d.issuanceKey == t[i].issuanceKey && d.channel.DeviceLink?
    ensures
      var u := Retire(t, i, guid, reason, now);
      && (NoSlotLeft(u, guid, max, now).None?
          <==> CountOccupied(t, guid, now) - (if Live(t[i], now) then 1 else 0) < max)
      && (UniqueIndexes(u + [d]) <==> !PublicIdTaken(t, d.publicId))
  {
    RetireCounts(t, i, guid, reason, now);
    RetiredNames(t, i, guid, reason, now, d.publicId);
    if PublicIdTaken(t, d.publicId) {
      TakenIsNotUnique(Retire(t, i, guid, reason, now), d);
    } else {
      ReplaceUnique(t, i, guid, reason, now, d);
    }
  }

  lemma RegeneratesExactly(db: Db, cfg: Config, guid: Guid, publicId: string, draw: Draw, now: Time)
    requires UniqueIndexes(db.devices)
    ensures
      var u := Regenerate(db, cfg, guid, publicId, draw, now).db.devices;
      && (|u| > |db.devices| <==> MayReissue(db, guid, publicId, draw, now))
      && (|u| > |db.devices| ==>
            u[|db.devices|].origin.Replaces(FindDevice(db.devices, guid, publicId).value))
  {
    var found := FindDevice(db.devices, guid, publicId);
    if found.Some? && guid in db.entitlements {
      ReplacementFits(db.devices, found.value, guid, Regenerated, db.entitlements[guid].max, now,
                      RegeneratedLink(cfg, db.devices[found.value], found.value, draw, now));
    }
  }

  lemma TransfersExactly(
      db: Db, cfg: Config, guid: Guid, publicId: string, operationId: Option<string>,
      platform: Option<Platform>, draw: Draw, now: Time)
    requires UniqueIndexes(db.devices)
    ensures
      var u := Transfer(db, cfg, guid, publicId, operationId, platform, draw, now).db.devices;
      && (|u| > |db.devices| <==> MayTransfer(db, cfg, guid, publicId, operationId, platform, draw, now))
      && (|u| > |db.devices| ==>
            u[|db.devices|].origin.Replaces(FindDevice(db.devices, guid, publicId).value))
  {
    var found := FindDevice(db.devices, guid, publicId);
    if found.Some? && platform.Some? && guid in db.entitlements {
      ReplacementFits(db.devices, found.value, guid, Transferred, db.entitlements[guid].max, now,
                      TransferredLink(cfg, db.devices[found.value], found.value, platform.value, draw, now));
    }
  }

  /** A regeneration or transfer adds a row, the replacement of the device it names, exactly when the
      state it finds meets its guard. */
  lemma ReplacesExactly(db: Db, e: Event)
    requires UniqueIndexes(db.devices) && Reissued(e.op)
    ensures |Step(db, e).devices| > |db.devices| <==> MayReplace(db, e)
    ensures MayReplace(db, e) ==>
              Step(db, e).devices[|db.devices|].origin.Replaces(FindDevice(db.devices, e.op.guid, e.op.publicId).value)
  {
    match e.op
    case OpRegenerate(cfg, g, p, f) => RegeneratesExactly(db, cfg, g, p, f, e.at);
    case OpTransfer(cfg, g, p, o, pl, f) => TransfersExactly(db, cfg, g, p, o, pl, f, e.at);
  }

  lemma OthersAreFresh(db: Db, e: Event)
    requires TableInvariant(db.devices) && !Reissued(e.op)
    ensures |Step(db, e).devices| > |db.devices| ==> Step(db, e).devices[|db.devices|].origin.Issued?
  {
    match e.op
    case OpCreateToken(cfg, g, r, f) => CreatedIsFresh(db, cfg, g, r, f, e.at);
    case OpResolve(cfg, g, h, v, pr, n, f) => ResolvedIsFresh(db, cfg, g, h, v, pr, n, f, e.at);
    case _ => OthersAddNothing(db, e);
  }

  lemma OthersAddNothing(db: Db, e: Event)
    requires TableInvariant(db.devices)
    requires !Reissued(e.op) && !e.op.OpCreateToken? && !e.op.OpResolve?
    ensures |Step(db, e).devices| == |db.devices|
  {
    match e.op
    case OpValidate(cfg, g, p, s, pr, c) => ValidateTable(db, cfg, g, p, s, pr, c, e.at);
    case OpEnable(cfg, g, p) => EnableTable(db, cfg, g, p, e.at);
    case _ =>
  }

  /* ---------- exactly when a chain forks ---------- */

  lemma EvolvingKeepsForks(t: Table, u: Table)
    requires TableEvolves(t, u) && Sourced(t) && NoForks(t) && |u| <= |t| + 1
    requires |u| == |t| || u[|t|].origin.Issued?
    ensures Sourced(u) && NoForks(u)
  {
    forall i | 0 <= i < |t| ensures u[i].origin == t[i].origin {
      assert Evolves(t[i], u[i]);
    }
  }

  lemma ReplacingForks(t: Table, u: Table, k: nat)
    requires TableEvolves(t, u) && Sourced(t) && NoForks(t) && |u| == |t| + 1
    requires k < |t| && u[|t|].origin.Replaces(k)
    ensures Sourced(u) && (NoForks(u) <==> !Replaced(t, k))
  {
    forall i | 0 <= i < |t| ensures u[i].origin == t[i].origin {
      assert Evolves(t[i], u[i]);
    }
    if Replaced(t, k) {
      var i :| 0 <= i < |t| && t[i].origin.Replaces(k);
      assert u[i].origin.source == k;
    } else {
      forall i | 0 <= i < |t| && !t[i].origin.Issued? ensures t[i].origin.source != k {
        assert !t[i].origin.Replaces(k);
      }
    }
  }

  /** One step forks a chain exactly when it meets its guard on a row that has been replaced already. */
  lemma StepForks(db: Db, e: Event)
    requires TableInvariant(db.devices) && UniqueIndexes(db.devices)
    requires Sourced(db.devices) && NoForks(db.devices)
    ensures Sourced(Step(db, e).devices) && (NoForks(Step(db, e).devices) <==> !ReplacesAgain(db, e))
  {
    StepGood(db, e);
    if Reissued(e.op) {
      ReplacesExactly(db, e);
    } else {
      OthersAreFresh(db, e);
    }
    if MayReplace(db, e) {
      ReplacingForks(db.devices, Step(db, e).devices, FindDevice(db.devices, e.op.guid, e.op.publicId).value);
    } else {
      EvolvingKeepsForks(db.devices, Step(db, e).devices);
    }
  }

  predicate NoForksRun(db: Db, events: seq<Event>)
    decreases |events|
  {
    |events| == 0 || (NoForks(Step(db, events[0]).devices) && NoForksRun(Step(db, events[0]), events[1..]))
  }

  predicate NoneReplacedAgain(db: Db, events: seq<Event>)
    decreases |events|
  {
    |events| == 0 || (!ReplacesAgain(db, events[0]) && NoneReplacedAgain(Step(db, events[0]), events[1..]))
  }

  /** Over runs: chains never fork if and only if no regeneration or transfer meets its guard on a
      device that has been replaced. */
  lemma {:induction false} ForksExactly(db: Db, events: seq<Event>)
    requires TableInvariant(db.devices) && UniqueIndexes(db.devices)
    requires Sourced(db.devices) && NoForks(db.devices)
    ensures NoForksRun(db, events) <==> NoneReplacedAgain(db, events)
    decreases |events|
  {
    if |events| > 0 {
      StepGood(db, events[0]);
      StepForks(db, events[0]);
      StepUnique(db, events[0]);
      if NoForks(Step(db, events[0]).devices) {
        ForksExactly(Step(db, events[0]), events[1..]);
      }
    }
  }

  /* ---------- enabling is what makes it possible ---------- */

  predicate ReplacedAreRevoked(t: Table) {
    forall i :: 0 <= i < |t| && !t[i].origin.Issued? && t[i].origin.source < |t| ==>
      t[t[i].origin.source].revokedAt.Some?
  }

  /** An enable that brings back a device that has been replaced. */
  predicate EnablesReplaced(db: Db, e: Event) {
    e.op.OpEnable?
    && var found := FindDevice(db.devices, e.op.guid, e.op.publicId);
       found.Some? && Replaced(db.devices, found.value)
  }

  lemma ReplacedStayRevoked(t: Table, u: Table, e: Event, cooldown: int)
    requires Classified(t, u, e) && Grows(t, u, e.at, cooldown) && Sourced(t) && ReplacedAreRevoked(t)
    requires forall k: nat :: k < |t| && Enables(e, t[k].sub, t[k].publicId) ==> !Replaced(t, k)
    ensures ReplacedAreRevoked(u)
  {
    forall i | 0 <= i < |u| && !u[i].origin.Issued? && u[i].origin.source < |u|
      ensures u[u[i].origin.source].revokedAt.Some?
    {
      var k := u[i].origin.source;
      if i < |t| {
        assert Evolves(t[i], u[i]);
        assert t[i].origin.Replaces(k);
      }
    }
  }

  lemma StepKeepsReplacedRevoked(db: Db, e: Event)
    requires TableInvariant(db.devices) && UniqueIndexes(db.devices) && Sourced(db.devices)
    requires ReplacedAreRevoked(db.devices) && !EnablesReplaced(db, e)
    ensures ReplacedAreRevoked(Step(db, e).devices)
  {
    var t := db.devices;
    var cooldown := if e.op.OpTransfer? then e.op.cfg.transferCooldown else 0;
    StepGood(db, e);
    StepGrows(db, e, cooldown);
    forall k: nat | k < |t| && Enables(e, t[k].sub, t[k].publicId) ensures !Replaced(t, k) {
      NamedRow(t, k);
    }
    ReplacedStayRevoked(t, Step(db, e).devices, e, cooldown);
  }

  lemma RevokedIsNotReplaced(db: Db, e: Event)
    requires ReplacedAreRevoked(db.devices) && Sourced(db.devices)
    ensures !ReplacesAgain(db, e)
  {
  }

  predicate NoneReplacedEnabled(db: Db, events: seq<Event>)
    decreases |events|
  {
    |events| == 0 || (!EnablesReplaced(db, events[0]) && NoneReplacedEnabled(Step(db, events[0]), events[1..]))
  }

  /** So in a run that enables no replaced device no device of either channel is replaced twice. */
  lemma {:induction false} WithoutEnablingNoForks(db: Db, events: seq<Event>)
    requires TableInvariant(db.devices) && UniqueIndexes(db.devices) && Sourced(db.devices)
    requires NoForks(db.devices) && ReplacedAreRevoked(db.devices) && NoneReplacedEnabled(db, events)
    ensures NoForksRun(db, events)
    decreases |events|
  {
    if |events| > 0 {
      RevokedIsNotReplaced(db, events[0]);
      StepGood(db, events[0]);
      StepForks(db, events[0]);
      StepKeepsReplacedRevoked(db, events[0]);
      StepUnique(db, events[0]);
      WithoutEnablingNoForks(Step(db, events[0]), events[1..]);
    }
  }

  /* ---------- a device that is replaced twice ---------- */

  /** Devices of the feed are never replacements, so none of them carries a transfer time. */
  predicate FeedIsFresh(t: Table) {
    forall i :: 0 <= i < |t| && t[i].channel.UnifiedFeed? ==> t[i].origin.Issued? && t[i].lastTransferAt.None?
  }

  lemma FeedStaysFresh(t: Table, u: Table, now: Time, cooldown: int)
    requires TableEvolves(t, u) && Grows(t, u, now, cooldown) && FeedIsFresh(t)
    ensures FeedIsFresh(u)
  {
    forall i | 0 <= i < |t| ensures Evolves(t[i], u[i]) {
    }
  }

  lemma StepFeedIsFresh(db: Db, e: Event)
    requires TableInvariant(db.devices) && FeedIsFresh(db.devices)
    ensures FeedIsFresh(Step(db, e).devices)
  {
    var cooldown := if e.op.OpTransfer? then e.op.cfg.transferCooldown else 0;
    StepGood(db, e);
    StepGrows(db, e, cooldown);
    FeedStaysFresh(db.devices, Step(db, e).devices, e.at, cooldown);
  }

  lemma {:induction false} RunFeedIsFresh(db: Db, events: seq<Event>)
    requires TableInvariant(db.devices) && FeedIsFresh(db.devices)
    ensures FeedIsFresh(Run(db, events).devices)
    decreases |events|
  {
    if |events| > 0 {
      StepFeedIsFresh(db, events[0]);
      StepGood(db, events[0]);
      RunFeedIsFresh(Step(db, events[0]), events[1..]);
    }
  }

  /** The event enables row k, which was revoked, and brings it back. */
  predicate Revives(db: Db, e: Event, k: nat) {
    k < |db.devices| && Enables(e, db.devices[k].sub, db.devices[k].publicId)
    && db.devices[k].revokedAt.Some?
    && k < |Step(db, e).devices| && Step(db, e).devices[k].revokedAt.None?
  }

  /** The m-th event of a run revives row k when the table holds more than low and at most high rows. */
  predicate RevivesAt(db: Db, events: seq<Event>, m: nat, k: nat, low: nat, high: nat) {
    m < |events| && Revives(Run(db, events[..m]), events[m], k)
    && low < |Run(db, events[..m]).devices| <= high
  }

  lemma RevivesLater(db: Db, events: seq<Event>, m: nat, k: nat, low: nat, high: nat)
    requires |events| > 0 && RevivesAt(Step(db, events[0]), events[1..], m, k, low, high)
    ensures RevivesAt(db, events, m + 1, k, low, high)
  {
    assert events[..m + 1] == [events[0]] + events[1..][..m];
    RunCons(db, events[0], events[1..][..m]);
  }

  /** A step that adds a replacement of row k finds it unrevoked and leaves it revoked. */
  lemma AddedReplacement(db: Db, e: Event, k: nat)
    requires TableInvariant(db.devices) && UniqueIndexes(db.devices)
    ensures
      var t, u := db.devices, Step(db, e).devices;
      |u| > |t| && u[|t|].origin.Replaces(k) ==>
        k < |t| && t[k].revokedAt.None? && u[k].revokedAt.Some?
  {
    StepGrows(db, e, if e.op.OpTransfer? then e.op.cfg.transferCooldown else 0);
    StepGood(db, e);
  }

  lemma RevivesFirst(db: Db, events: seq<Event>, k: nat, low: nat, high: nat)
    requires |events| > 0 && Revives(db, events[0], k) && low < |db.devices| <= high
    ensures RevivesAt(db, events, 0, k, low, high)
  {
    assert events[..0] == [];
  }

  lemma OriginKept(db: Db, events: seq<Event>, j: nat)
    requires TableInvariant(db.devices) && |events| > 0 && j < |Step(db, events[0]).devices|
    ensures j < |Run(db, events).devices| && Run(db, events).devices[j].origin == Step(db, events[0]).devices[j].origin
  {
    var next := Step(db, events[0]);
    StepGood(db, events[0]);
    RunGood(next, events[1..]);
    assert Evolves(next.devices[j], Run(next, events[1..]).devices[j]);
  }

  lemma StepAddsOne(db: Db, e: Event)
    requires TableInvariant(db.devices)
    ensures |db.devices| <= |Step(db, e).devices| <= |db.devices| + 1
  {
    StepGood(db, e);
  }

  /** A step cannot be the one that adds a replacement of a revoked row. */
  lemma NotReplacedYet(t: Table, u: Table, later: Table, j: nat, k: nat)
    requires |u| <= |t| + 1 && |t| <= j < |later| && later[j].origin.Replaces(k)
    requires |u| > |t| ==> !u[|t|].origin.Replaces(k)
    requires j < |u| ==> later[j].origin == u[j].origin
    ensures |u| <= j
  {
  }

  /** A revoked row that is going to be replaced is revived before that. */
  lemma {:induction false} RevivedBefore(db: Db, events: seq<Event>, low: nat, j: nat, k: nat)
    requires TableInvariant(db.devices) && UniqueIndexes(db.devices)
    requires k < |db.devices| && db.devices[k].revokedAt.Some? && low < |db.devices| <= j
    ensures
      var t := Run(db, events).devices;
      j < |t| && t[j].origin.Replaces(k) ==> exists m: nat :: RevivesAt(db, events, m, k, low, j)
    decreases |events|
  {
    if |events| > 0 && j < |Run(db, events).devices| && Run(db, events).devices[j].origin.Replaces(k) {
      var next := Step(db, events[0]);
      StepGood(db, events[0]);
      StepUnique(db, events[0]);
      if next.devices[k].revokedAt.None? {
        RevivesFirst(db, events, k, low, j);
      } else {
        StepAddsOne(db, events[0]);
        AddedReplacement(db, events[0], k);
        if j < |next.devices| {
          OriginKept(db, events, j);
        }
        NotReplacedYet(db.devices, next.devices, Run(db, events).devices, j, k);
        RevivedBefore(next, events[1..], low, j, k);
        var m: nat :| RevivesAt(next, events[1..], m, k, low, j);
        RevivesLater(db, events, m, k, low, j);
      }
    }
  }

  predicate ReplacedTwice(t: Table, i: nat, j: nat, k: nat) {
    i < j < |t| && t[i].origin.Replaces(k) && t[j].origin.Replaces(k)
  }

  lemma {:induction false} RevivedBetween(db: Db, events: seq<Event>, i: nat, j: nat, k: nat)
    requires TableInvariant(db.devices) && UniqueIndexes(db.devices)
    requires |db.devices| <= i < j
    ensures ReplacedTwice(Run(db, events).devices, i, j, k) ==> exists m: nat :: RevivesAt(db, events, m, k, i, j)
    decreases |events|
  {
    if |events| > 0 && ReplacedTwice(Run(db, events).devices, i, j, k) {
      var e, next := events[0], Step(db, events[0]);
      StepGood(db, e);
      StepUnique(db, e);
      RunGood(next, events[1..]);
      if |next.devices| == i + 1 {
        assert Evolves(next.devices[i], Run(next, events[1..]).devices[i]);
        AddedReplacement(db, e, k);
        RevivedBefore(next, events[1..], i, j, k);
      } else {
        RevivedBetween(next, events[1..], i, j, k);
      }
      var m: nat :| RevivesAt(next, events[1..], m, k, i, j);
      RevivesLater(db, events, m, k, i, j);
    }
  }

  /** A device that two rows of a reachable table replace is a device of the feed; it was revoked and
      then enabled after the first replacement and before the second; and it has no transfer time, so
      no cooldown ever stops a transfer of it. */
  lemma DoublyReplacedWasEnabled(events: seq<Event>, i: nat, j: nat, k: nat)
    requires ReplacedTwice(Run(EMPTY, events).devices, i, j, k)
    ensures k < |Run(EMPTY, events).devices|
    ensures Run(EMPTY, events).devices[k].channel.UnifiedFeed?
    ensures exists m: nat :: RevivesAt(EMPTY, events, m, k, i, j)
    ensures forall cfg, now :: !CoolingDown(Run(EMPTY, events).devices[k], cfg, now)
  {
    RevivedBetween(EMPTY, events, i, j, k);
    var m: nat :| RevivesAt(EMPTY, events, m, k, i, j);
    var before := Run(EMPTY, events[..m]);
    RunGood(EMPTY, events[..m]);
    StepGood(before, events[m]);
    assert Evolves(before.devices[k], Step(before, events[m]).devices[k]);
    RunAppend(EMPTY, events[..m], events[m..]);
    assert events[..m] + events[m..] == events;
    RunGood(before, events[m..]);
    assert Evolves(before.devices[k], Run(EMPTY, events).devices[k]);
    RunFeedIsFresh(EMPTY, events);
  }

  lemma {:induction false} RunAppend(db: Db, a: seq<Event>, b: seq<Event>)
    ensures Run(db, a + b) == Run(Run(db, a), b)
    decreases |a|
  {
    if |a| == 0 {
      assert a + b == b;
    } else {
      assert a + b == [a[0]] + (a[1..] + b);
      RunCons(db, a[0], a[1..] + b);
      RunAppend(Step(db, a[0]), a[1..], b);
    }
  }

  /* ---------- a device of the feed, transferred twice ---------- */

  const FORK_CFG := Config(10, 10, 1000, BindingEnforce, Enforce, 2, true, {"k"}, {})

  function ForkDraw(publicId: string): Draw {
    Draw(publicId, "s", Protected("k", "n", "c", "t"))
  }

  const FORK_PRESENTED := Presented(None, Hwid("h"), IdentityKeys(Some("k"), None), false)

  /** HWID h takes a slot of two, is transferred, enabled again and transferred again at once. */
  const FORK_RUN := [
    Event(OpCreateSubscription("g", None, Entitlement(1, "active", None, 2)), 0),
    Event(OpResolve(FORK_CFG, "g", true, true, FORK_PRESENTED, "Phone", ForkDraw("1")), 0),
    Event(OpTransfer(FORK_CFG, "g", "1", Some("a"), Some("android"), ForkDraw("2")), 1),
    Event(OpEnable(FORK_CFG, "g", "1"), 2),
    Event(OpTransfer(FORK_CFG, "g", "1", Some("b"), Some("android"), ForkDraw("3")), 3)]

  const FORK_START := Step(EMPTY, FORK_RUN[0])
  const FORK_DEVICE := NewUnified("g", ForkDraw("1"), "Phone", FORK_PRESENTED, IdentityHash("k", "h"), 10)

  function RetiredAt(d: Device, at: Time): Device {
    RevokeRow(ReleaseKey(d), at, Transferred)
  }

  function LinkFor(d: Device, publicId: string, at: Time): Device {
    TransferredLink(FORK_CFG, d, 0, "android", ForkDraw(publicId), at)
  }

  const FORK_ENABLED := Reenabled(RetiredAt(FORK_DEVICE, 1), 12)
  const FORK_TAKEN := [FORK_DEVICE]
  const FORK_ONCE := [RetiredAt(FORK_DEVICE, 1), LinkFor(FORK_DEVICE, "2", 1)]
  const FORK_BACK := [FORK_ENABLED, LinkFor(FORK_DEVICE, "2", 1)]
  const FORK_TWICE := [RetiredAt(FORK_ENABLED, 3), LinkFor(FORK_DEVICE, "2", 1), LinkFor(FORK_ENABLED, "3", 3)]

  /** What a transfer of row 0 needs in this run. */
  predicate Transferable(db: Db, operationId: string, publicId: string, at: Time) {
    && db.subscriptions == {"g"} && db.entitlements == map["g" := Entitlement(1, ACTIVE, None, 2)]
    && operationId !in db.transfers
    && 1 <= |db.devices| <= 2 && UniqueIndexes(db.devices) && !PublicIdTaken(db.devices, publicId)
    && FindDevice(db.devices, "g", "1") == Some(0)
    && db.devices[0].revokedAt.None? && db.devices[0].lastTransferAt.None?
    && forall i :: 0 <= i < |db.devices| ==>
         db.devices[i].pendingExpiresAt.Some? && db.devices[i].pendingExpiresAt.value > at
  }

  lemma TransferOnce(db: Db, operationId: string, publicId: string, at: Time)
    requires Transferable(db, operationId, publicId, at)
    ensures
      var d, t := db.devices[0], db.devices;
      Transfer(db, FORK_CFG, "g", "1", Some(operationId), Some("android"), ForkDraw(publicId), at).db
      == db.(devices := t[0 := RetiredAt(d, at)] + [LinkFor(d, publicId, at)],
             transfers := db.transfers[operationId := TransferEntry("g", 0, |t|, TransferPayload("g", "1", "android"),
                                                                  at)])
  {
    var d, t := db.devices[0], db.devices;
    var u := Retire(t, 0, "g", Transferred, at);
    assert u == t[0 := RetiredAt(d, at)];
    ReplaceUnique(t, 0, "g", Transferred, at, LinkFor(d, publicId, at));
    ActiveAndPendingAreOccupied(u, "g", at);
    SubsetCount(OccupiedIds(u, "g", at), {1});
  }

  lemma ForkResolves(db: Db)
    requires db.devices == [] && db.subscriptions == {"g"}
    requires db.entitlements == map["g" := Entitlement(1, ACTIVE, None, 2)]
    ensures Resolve(db, FORK_CFG, "g", true, true, FORK_PRESENTED, "Phone", ForkDraw("1"), 0).db
         == db.(devices := FORK_TAKEN)
  {
    assert OccupiedIds(db.devices, "g", 0) == {};
    ResolveInserts(db, FORK_CFG, "g", true, true, FORK_PRESENTED, "Phone", ForkDraw("1"), 0);
    assert db.devices + FORK_TAKEN == FORK_TAKEN;
  }

  lemma ForkTaken(db: Db)
    requires db.devices == [] && db.subscriptions == {"g"}
    requires db.entitlements == map["g" := Entitlement(1, ACTIVE, None, 2)]
    ensures Step(db, FORK_RUN[1]) == db.(devices := FORK_TAKEN)
  {
    ForkResolves(db);
  }

  lemma ForkStarts()
    ensures FORK_START.devices == [] && FORK_START.subscriptions == {"g"} && FORK_START.transfers == map[]
    ensures FORK_START.entitlements == map["g" := Entitlement(1, ACTIVE, None, 2)]
  {
  }

  lemma ForkNames(t: Table)
    requires |t| == 2 && t[0].publicId == "1" && t[1].publicId == "2" && t[0].sub == "g"
    ensures FindDevice(t, "g", "1") == Some(0) && !PublicIdTaken(t, "3")
  {
    assert "1"[0] != "2"[0] && "3"[0] != "1"[0] && "3"[0] != "2"[0];
  }

  lemma ForkTransfers(db: Db)
    requires db.devices == FORK_TAKEN && db.subscriptions == {"g"} && db.transfers == map[]
    requires db.entitlements == map["g" := Entitlement(1, ACTIVE, None, 2)]
    ensures
      var s := Transfer(db, FORK_CFG, "g", "1", Some("a"), Some("android"), ForkDraw("2"), 1).db;
      s == db.(devices := FORK_ONCE, transfers := s.transfers) && s.transfers.Keys == {"a"}
  {
    assert db.devices[0].publicId == "1" && "1"[0] != "2"[0];
    assert FindDevice(db.devices, "g", "1") == Some(0);
    TransferOnce(db, "a", "2", 1);
    assert FORK_TAKEN[0 := RetiredAt(FORK_DEVICE, 1)] + [LinkFor(FORK_DEVICE, "2", 1)] == FORK_ONCE;
  }

  lemma ForkOnce(db: Db)
    requires db.devices == FORK_TAKEN && db.subscriptions == {"g"} && db.transfers == map[]
    requires db.entitlements == map["g" := Entitlement(1, ACTIVE, None, 2)]
    ensures
      var s := Step(db, FORK_RUN[2]);
      s == db.(devices := FORK_ONCE, transfers := s.transfers) && s.transfers.Keys == {"a"}
  {
    ForkTransfers(db);
  }

  /** The enabled device shares the subscription with the link that replaced it. */
  lemma ForkEnables(db: Db)
    requires db.devices == FORK_ONCE && db.subscriptions == {"g"}
    requires db.entitlements == map["g" := Entitlement(1, ACTIVE, None, 2)]
    ensures Enable(db, FORK_CFG, "g", "1", 2).db == db.(devices := FORK_BACK)
  {
    ForkNames(FORK_ONCE);
    SubsetCount(OccupiedIds(FORK_ONCE, "g", 2), {1});
    assert FORK_ONCE[0 := FORK_ENABLED] == FORK_BACK;
  }

  lemma ForkBack(db: Db)
    requires db.devices == FORK_ONCE && db.subscriptions == {"g"}
    requires db.entitlements == map["g" := Entitlement(1, ACTIVE, None, 2)]
    ensures Step(db, FORK_RUN[3]) == db.(devices := FORK_BACK)
  {
    ForkEnables(db);
  }

  lemma BackIsUnique()
    ensures UniqueIndexes(FORK_BACK)
  {
    assert FORK_BACK[0].publicId == "1" && FORK_BACK[1].publicId == "2" && "1"[0] != "2"[0];
  }

  lemma ForkTransfersAgain(db: Db)
    requires db.devices == FORK_BACK && db.subscriptions == {"g"} && db.transfers.Keys == {"a"}
    requires db.entitlements == map["g" := Entitlement(1, ACTIVE, None, 2)]
    ensures Transfer(db, FORK_CFG, "g", "1", Some("b"), Some("android"), ForkDraw("3"), 3).db.devices == FORK_TWICE
  {
    ForkNames(FORK_BACK);
    BackIsUnique();
    assert "b"[0] != "a"[0] && "b" !in db.transfers.Keys;
    TransferOnce(db, "b", "3", 3);
    assert FORK_BACK[0 := RetiredAt(FORK_ENABLED, 3)] + [LinkFor(FORK_ENABLED, "3", 3)] == FORK_TWICE;
  }

  lemma ForkTwice(db: Db)
    requires db.devices == FORK_BACK && db.subscriptions == {"g"} && db.transfers.Keys == {"a"}
    requires db.entitlements == map["g" := Entitlement(1, ACTIVE, None, 2)]
    ensures Step(db, FORK_RUN[4]).devices == FORK_TWICE
  {
    ForkTransfersAgain(db);
  }

  /** Two links replace the same device, two instants apart under a cooldown of a thousand. */
  lemma FeedDeviceForks()
    ensures Run(EMPTY, FORK_RUN).devices == FORK_TWICE && !NoForks(FORK_TWICE)
  {
    var e0, e1, e2, e3, e4 := FORK_RUN[0], FORK_RUN[1], FORK_RUN[2], FORK_RUN[3], FORK_RUN[4];
    ForkStarts();
    ForkTaken(FORK_START);
    ForkOnce(FORK_START.(devices := FORK_TAKEN));
    var once := Step(FORK_START.(devices := FORK_TAKEN), e2);
    ForkBack(once);
    ForkTwice(once.(devices := FORK_BACK));
    RunThree(EMPTY, e0, e1, e2, [e3, e4]);
    assert FORK_RUN == [e0, e1, e2] + [e3, e4] && [e3, e4] == [e3] + [e4] && [e4] == [e4] + [];
    RunCons(once, e3, [e4]);
    RunCons(once.(devices := FORK_BACK), e4, []);
    assert FORK_TWICE[2].origin.Replaces(FORK_TWICE[1].origin.source);
  }
}
