/** The slot bound over whole runs, and exactly when it holds. */
module SlotRuns {
  import opened Text
  import opened Canonical
  import opened DevicePolicy
  import opened DeviceTable
  import opened Registry
  import opened Lifecycle
  import opened SlotBound

  /** Timestamps do not go back in commit order. */
  predicate Monotone(clock: Time, events: seq<Event>)
    decreases |events|
  {
    |events| == 0 || (clock <= events[0].at && Monotone(events[0].at, events[1..]))
  }

  /** Every state of the run is within every limit at the time it is reached. */
  ghost predicate BoundedRun(db: Db, events: seq<Event>)
    decreases |events|
  {
    |events| == 0
    || (Bounded(Step(db, events[0]), events[0].at) && BoundedRun(Step(db, events[0]), events[1..]))
  }

  /** The one transaction that does not count before it takes a slot: an activation does no harm
      if it addresses no unrevoked row, a row that still holds its slot, or if a slot is free. */
  predicate Harmless(db: Db, e: Event) {
    e.op.OpMarkActivated? ==>
      var found := FeedRow(db, e.op.guid, e.op.publicId);
      found.None? || db.devices[found.value].revokedAt.Some? || Live(db.devices[found.value], e.at)
      || (e.op.guid in db.entitlements
          && CountOccupied(db.devices, e.op.guid, e.at) < db.entitlements[e.op.guid].max)
  }

  predicate HarmlessRun(db: Db, events: seq<Event>)
    decreases |events|
  {
    |events| == 0 || (Harmless(db, events[0]) && HarmlessRun(Step(db, events[0]), events[1..]))
  }

  /** An activation lands before the reservation it completes has expired. */
  predicate Timely(db: Db, e: Event) {
    e.op.OpMarkActivated? ==>
      var found := FeedRow(db, e.op.guid, e.op.publicId);
      found.None? || db.devices[found.value].revokedAt.Some? || db.devices[found.value].activatedAt.Some?
      || (db.devices[found.value].provisioningExpiresAt.Some?
          && e.at < db.devices[found.value].provisioningExpiresAt.value)
  }

  predicate TimelyRun(db: Db, events: seq<Event>)
    decreases |events|
  {
    |events| == 0 || (Timely(db, events[0]) && TimelyRun(Step(db, events[0]), events[1..]))
  }

  lemma BoundedLater(db: Db, earlier: Time, later: Time)
    requires Bounded(db, earlier) && earlier <= later
    ensures Bounded(db, later)
  {
    forall sub | sub in db.entitlements
      ensures CountOccupied(db.devices, sub, later) <= db.entitlements[sub].max
    {
      OccupancyShrinks(db.devices, sub, earlier, later);
    }
  }

  lemma StepBoundedLinks(db: Db, e: Event)
    requires Rooted(db)
    requires e.op.OpCreateToken? || e.op.OpRegenerate? || e.op.OpTransfer?
    ensures Rooted(Step(db, e)) && KeepsBound(db, Step(db, e), e.at)
  {
    match e.op
    case OpCreateToken(cfg, g, r, f) =>
      CreateTokenSlots(db, cfg, g, r, f, e.at);
      SlotStepKeeps(db, Step(db, e), g, e.at);
    case OpRegenerate(cfg, g, p, f) =>
      RegenerateSlots(db, cfg, g, p, f, e.at);
      SlotStepKeeps(db, Step(db, e), g, e.at);
    case OpTransfer(cfg, g, p, o, pl, f) =>
      TransferSlots(db, cfg, g, p, o, pl, f, e.at);
      SlotStepKeeps(db, Step(db, e), g, e.at);
  }

  lemma StepBoundedAccess(db: Db, e: Event)
    requires Rooted(db)
    requires e.op.OpValidate? || e.op.OpResolve?
    ensures Rooted(Step(db, e)) && KeepsBound(db, Step(db, e), e.at)
  {
    match e.op
    case OpValidate(cfg, g, p, s, pr, c) =>
      ValidateSlots(db, cfg, g, p, s, pr, c, e.at);
      SlotStepKeeps(db, Step(db, e), g, e.at);
    case OpResolve(cfg, g, h, v, pr, n, f) =>
      ResolveSlots(db, cfg, g, h, v, pr, n, f, e.at);
      SlotStepKeeps(db, Step(db, e), g, e.at);
  }

  lemma StepBoundedRows(db: Db, e: Event)
    requires Rooted(db)
    requires e.op.OpRevoke? || e.op.OpRevokeAll? || e.op.OpReadRepair? || e.op.OpMarkFailed? || e.op.OpEnable?
    ensures Rooted(Step(db, e)) && KeepsBound(db, Step(db, e), e.at)
  {
    match e.op
    case OpRevoke(g, p) =>
      RevokeSlots(db, g, p, e.at);
      SlotStepKeeps(db, Step(db, e), g, e.at);
    case OpRevokeAll(g) =>
      RevokeAllSlots(db, g, e.at);
      SlotStepKeeps(db, Step(db, e), g, e.at);
    case OpReadRepair(i, a, b) => ReadRepairSlots(db, i, a, b, e.at);
    case OpMarkFailed(cfg, g, p) =>
      MarkFailedSlots(db, cfg, g, p, e.at);
      SlotStepKeeps(db, Step(db, e), g, e.at);
    case OpEnable(cfg, g, p) =>
      EnableSlots(db, cfg, g, p, e.at);
      SlotStepKeeps(db, Step(db, e), g, e.at);
  }

  lemma StepBoundedEntitlements(db: Db, e: Event)
    requires Rooted(db)
    requires e.op.OpCreateSubscription? || e.op.OpApplyOperation? || e.op.OpPutEntitlement?
    ensures Rooted(Step(db, e)) && KeepsBound(db, Step(db, e), e.at)
  {
    match e.op
    case OpCreateSubscription(g, x, ent) => CreateSubscriptionSlots(db, g, x, ent, e.at);
    case OpApplyOperation(g, r) => ApplyOperationSlots(db, g, r, e.at);
    case OpPutEntitlement(g, ent) => PutEntitlementSlots(db, g, ent, e.at);
  }

  /** Every transaction but activation keeps the bound unconditionally. */
  lemma StepBounded(db: Db, e: Event)
    requires Rooted(db) && !e.op.OpMarkActivated?
    ensures Rooted(Step(db, e)) && KeepsBound(db, Step(db, e), e.at)
  {
    match e.op
    case OpCreateToken(_, _, _, _) => StepBoundedLinks(db, e);
    case OpRegenerate(_, _, _, _) => StepBoundedLinks(db, e);
    case OpTransfer(_, _, _, _, _, _) => StepBoundedLinks(db, e);
    case OpValidate(_, _, _, _, _, _) => StepBoundedAccess(db, e);
    case OpResolve(_, _, _, _, _, _, _) => StepBoundedAccess(db, e);
    case OpCreateSubscription(_, _, _) => StepBoundedEntitlements(db, e);
    case OpApplyOperation(_, _) => StepBoundedEntitlements(db, e);
    case OpPutEntitlement(_, _) => StepBoundedEntitlements(db, e);
    case _ => StepBoundedRows(db, e);
  }

  /** Activation keeps the bound exactly when it is harmless. */
  lemma ActivationBounded(db: Db, guid: Guid, publicId: string, now: Time)
    requires Rooted(db)
    ensures Rooted(MarkActivated(db, guid, publicId, now))
    ensures Bounded(db, now) ==>
              (Bounded(MarkActivated(db, guid, publicId, now), now)
               <==> Harmless(db, Event(OpMarkActivated(guid, publicId), now)))
  {
    var found := FeedRow(db, guid, publicId);
    if found.Some? && db.devices[found.value].revokedAt.None? {
      var i, d := found.value, Activated(db.devices[found.value], now);
      var after := MarkActivated(db, guid, publicId, now);
      assert after == db.(devices := db.devices[i := d]);
      PutCounts(db.devices, i, d, guid, now);
      if Live(db.devices[i], now) || CountOccupied(db.devices, guid, now) < db.entitlements[guid].max {
        PutStep(db, i, d, now);
        SlotStepKeeps(db, after, guid, now);
      } else {
        assert guid in after.entitlements;
      }
    }
  }

  /** The bound over runs, with its exact condition: from any bounded state, a run whose
      timestamps do not go back stays within every limit if and only if each activation in it
      is harmless where it happens. */
  lemma {:induction false} SlotBoundExactly(db: Db, clock: Time, events: seq<Event>)
    requires Rooted(db) && Bounded(db, clock) && Monotone(clock, events)
    ensures BoundedRun(db, events) <==> HarmlessRun(db, events)
    decreases |events|
  {
    if |events| > 0 {
      var e := events[0];
      BoundedLater(db, clock, e.at);
      if e.op.OpMarkActivated? {
        ActivationBounded(db, e.op.guid, e.op.publicId, e.at);
      } else {
        StepBounded(db, e);
      }
      if Bounded(Step(db, e), e.at) {
        SlotBoundExactly(Step(db, e), e.at, events[1..]);
      }
    }
  }

  /** A timely activation completes a row that still holds its slot. */
  lemma TimelyIsHarmless(db: Db, e: Event)
    requires TableInvariant(db.devices) && Timely(db, e)
    ensures Harmless(db, e)
  {
    if e.op.OpMarkActivated? {
      var found := FeedRow(db, e.op.guid, e.op.publicId);
      if found.Some? {
        assert RowInvariant(db.devices[found.value]);
      }
    }
  }

  lemma {:induction false} TimelyRunIsHarmless(db: Db, events: seq<Event>)
    requires TableInvariant(db.devices) && TimelyRun(db, events)
    ensures HarmlessRun(db, events)
    decreases |events|
  {
    if |events| > 0 {
      TimelyIsHarmless(db, events[0]);
      StepGood(db, events[0]);
      TimelyRunIsHarmless(Step(db, events[0]), events[1..]);
    }
  }

  /** The promise as the feed is meant to be used: with timestamps in order and every activation
      on time, no interleaving of transactions ever exceeds a limit. */
  lemma SlotBoundOverRuns(clock: Time, events: seq<Event>)
    requires Monotone(clock, events) && TimelyRun(EMPTY, events)
    ensures BoundedRun(EMPTY, events)
  {
    TimelyRunIsHarmless(EMPTY, events);
    SlotBoundExactly(EMPTY, clock, events);
  }

  /** Within the bound, neither entitlement update ever reports more active devices than its
      limit: it has refused the decrease first. */
  lemma ActiveConflictUnreachable(db: Db, guid: Guid, r: OperationRequest, e: Entitlement, now: Time)
    requires Bounded(db, now)
    ensures !ApplyOperation(db, guid, r, now).result.OperationActiveDevicesConflict?
    ensures guid in db.entitlements ==> !PutEntitlement(db, guid, e).result.PutActiveDevicesExceedNewLimit?
  {
    ActiveAndPendingAreOccupied(db.devices, guid, now);
    if guid in db.entitlements {
      assert CountOccupied(db.devices, guid, now) <= db.entitlements[guid].max;
    }
  }

  /* ---------- a late activation ---------- */

  const LATE_CFG := Config(10, 10, 0, BindingEnforce, Enforce, 2, true, {}, {})
  const LATE_KEYS := IdentityKeys(Some("k"), None)
  const LATE_CREDENTIAL := Protected("k", "n", "c", "t")

  function LateResolve(hwid: string, publicId: string, at: Time): Event {
    Event(OpResolve(LATE_CFG, "g", true, true, Presented(None, Hwid(hwid), LATE_KEYS, false), "Phone",
                    Draw(publicId, "s", LATE_CREDENTIAL)), at)
  }

  const LATE_ENTITLEMENT := Entitlement(1, "active", None, 1)

  /** One slot: device a reserves it and lets the reservation lapse, device b takes it, and then
      the request of a that was still being answered activates it. */
  const LATE_RUN := [
    Event(OpCreateSubscription("g", None, LATE_ENTITLEMENT), 0),
    LateResolve("a", "1", 0),
    LateResolve("b", "2", 20),
    Event(OpMarkActivated("g", "1"), 21)]

  function LateRow(hwid: string, publicId: string, until: Time): Device {
    NewUnified("g", Draw(publicId, "s", LATE_CREDENTIAL), "Phone", Presented(None, Hwid(hwid), LATE_KEYS, false),
               IdentityHash("k", hwid), until)
  }

  lemma LateResolveAdds(db: Db, hwid: string, publicId: string, at: Time)
    requires "g" in db.subscriptions && "g" in db.entitlements && db.entitlements["g"] == LATE_ENTITLEMENT
    requires UniqueIndexes(db.devices + [LateRow(hwid, publicId, at + 10)])
    requires forall i :: 0 <= i < |db.devices| ==> db.devices[i].policy.boundIdentity != Some(IdentityHash("k", hwid))
    requires forall i :: 0 <= i < |db.devices| ==> !Live(db.devices[i], at)
    ensures Step(db, LateResolve(hwid, publicId, at))
         == db.(devices := db.devices + [LateRow(hwid, publicId, at + 10)])
  {
    assert OccupiedIds(db.devices, "g", at) == {};
  }

  const LATE_A := LateRow("a", "1", 10)
  const LATE_B := LateRow("b", "2", 30)
  const LATE_START := Step(EMPTY, LATE_RUN[0])
  const LATE_RESERVED := LATE_START.(devices := [LATE_A])
  const LATE_RETAKEN := LATE_START.(devices := [LATE_A, LATE_B])
  const LATE_END := LATE_START.(devices := [Activated(LATE_A, 21), LATE_B])

  lemma LateFirst()
    ensures Step(LATE_START, LATE_RUN[1]) == LATE_RESERVED
  {
    LateResolveAdds(LATE_START, "a", "1", 0);
    assert LATE_START.devices + [LATE_A] == [LATE_A];
  }

  lemma LateSecond()
    ensures Step(LATE_RESERVED, LATE_RUN[2]) == LATE_RETAKEN
  {
    assert !Clash(LATE_A, LATE_B);
    LateResolveAdds(LATE_RESERVED, "b", "2", 20);
    assert [LATE_A] + [LATE_B] == [LATE_A, LATE_B];
  }

  lemma LateThird()
    ensures Step(LATE_RETAKEN, LATE_RUN[3]) == LATE_END
  {
    assert LATE_A.publicId == "1" && LATE_B.publicId == "2" && "1"[0] != "2"[0];
    assert LATE_RETAKEN.devices[0] == LATE_A && LATE_RETAKEN.devices[1] == LATE_B;
    assert FindDevice(LATE_RETAKEN.devices, "g", "1") == Some(0);
  }

  lemma LateCount()
    ensures CountOccupied(LATE_END.devices, "g", 21) == 2
    ensures !Bounded(LATE_END, 21)
  {
    assert OccupiedIds(LATE_END.devices, "g", 21) == {0, 1};
    assert "g" in LATE_END.entitlements;
  }

  lemma Unroll(db: Db, e: Event, rest: seq<Event>)
    ensures Run(db, [e] + rest) == Run(Step(db, e), rest)
    ensures BoundedRun(db, [e] + rest) <==> Bounded(Step(db, e), e.at) && BoundedRun(Step(db, e), rest)
  {
    assert ([e] + rest)[1..] == rest;
  }

  lemma MonotoneCons(clock: Time, e: Event, rest: seq<Event>)
    ensures Monotone(clock, [e] + rest) <==> clock <= e.at && Monotone(e.at, rest)
  {
    assert ([e] + rest)[1..] == rest;
  }

  /** Without timeliness the bound fails: the limit is one and two devices are live. */
  lemma LateActivationOverflows()
    ensures Monotone(0, LATE_RUN)
    ensures CountOccupied(Run(EMPTY, LATE_RUN).devices, "g", 21) == 2
    ensures !BoundedRun(EMPTY, LATE_RUN)
  {
    var e0, e1, e2, e3 := LATE_RUN[0], LATE_RUN[1], LATE_RUN[2], LATE_RUN[3];
    assert LATE_RUN == [e0] + ([e1] + ([e2] + ([e3] + [])));
    MonotoneCons(21, e3, []);
    MonotoneCons(0, e2, [e3] + []);
    MonotoneCons(0, e1, [e2] + ([e3] + []));
    MonotoneCons(0, e0, [e1] + ([e2] + ([e3] + [])));
    LateFirst();
    LateSecond();
    LateThird();
    LateCount();
    Unroll(LATE_RETAKEN, e3, []);
    Unroll(LATE_RESERVED, e2, [e3] + []);
    Unroll(LATE_START, e1, [e2] + ([e3] + []));
    Unroll(EMPTY, e0, [e1] + ([e2] + ([e3] + [])));
  }
}
