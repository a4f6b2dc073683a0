/** Requests without an idempotency key: when two of them come under the same compatibility key, and
    so when an identical repeat is a replay. */
module KeylessRequests {
  import opened Text
  import opened Canonical
  import opened DevicePolicy
  import opened DeviceTable
  import opened Registry
  import opened Lifecycle
  import opened Uniqueness
  import opened Issuance

  /** The slot that an unnamed legacy request is named after. */
  function NextSlot(db: Db, guid: Guid, now: Time): nat {
    CountOccupied(db.devices, guid, now) + 1
  }

  lemma SlotIsOccupancy(db: Db, guid: Guid, now: Time)
    ensures
      var t := ExpirePending(db.devices, guid, now);
      CountActive(t, guid) + CountPending(t, guid, now) + 1 == NextSlot(db, guid, now)
  {
    ActiveAndPendingAreOccupied(ExpirePending(db.devices, guid, now), guid, now);
    ExpiringKeepsOccupancy(db.devices, guid, guid, now);
  }

  function NameOf(db: Db, guid: Guid, r: TokenRequest, now: Time): string {
    r.displayName.GetOr(DefaultDisplayName(NextSlot(db, guid, now)))
  }

  lemma KeylessKey(db: Db, cfg: Config, guid: Guid, r: TokenRequest, now: Time)
    requires r.key.NoKey?
    ensures KeyOf(db, cfg, guid, r, now)
         == if cfg.newPolicyMode.Legacy? then LegacyKey(NameOf(db, guid, r, now))
            else CompatibilityKey(r.displayName, RequestedPlatform(r.platform), cfg.newPolicyMode)
  {
    SlotIsOccupancy(db, guid, now);
  }

  lemma KindsDiffer(name: string, other: Option<string>, platform: Option<Platform>, mode: PolicyMode)
    ensures LegacyKey(name) != CompatibilityKey(other, platform, mode)
  {
    assert LegacyKey(name)[0] == 'l' && CompatibilityKey(other, platform, mode)[0] == 'p';
  }

  lemma LegacyKeyInjective(a: string, b: string)
    requires LegacyKey(a) == LegacyKey(b)
    ensures a == b
  {
    var prefix := "legacy-display-name:v1:";
    assert LegacyKey(a)[|prefix|..] == a && LegacyKey(b)[|prefix|..] == b;
  }

  lemma ModeNames(a: PolicyMode, b: PolicyMode)
    ensures ModeName(a) == ModeName(b) ==> a == b
    ensures '\0' !in ModeName(a)
  {
    assert "legacy"[0] == 'l' && "observe"[0] == 'o' && "enforce"[0] == 'e';
  }

  lemma CompatibilityKeyInjective(
      a: Option<string>, p: Option<Platform>, m: PolicyMode, b: Option<string>, q: Option<Platform>, n: PolicyMode)
    requires NormalisedName(a) && NormalisedName(b) && NormalisedPlatform(p) && NormalisedPlatform(q)
    requires CompatibilityKey(a, p, m) == CompatibilityKey(b, q, n)
    ensures a == b && p == q && m == n
  {
    var prefix := "protected-compatibility:v2:";
    var x, y := prefix + a.GetOr(""), prefix + b.GetOr("");
    ModeNames(m, n);
    ModeNames(n, m);
    SplitAtLast(x + "\0" + OptionalPlatform(p), ModeName(m), y + "\0" + OptionalPlatform(q), ModeName(n), '\0');
    SplitAtLast(x, OptionalPlatform(p), y, OptionalPlatform(q), '\0');
    assert x[|prefix|..] == a.GetOr("") && y[|prefix|..] == b.GetOr("");
  }

  /** Two keyless requests come under the same key if and only if the mode is the same and they have
      the same name, in legacy mode, or are the same request, in the others. */
  lemma KeylessKeysAgree(
      db: Db, cfg: Config, guid: Guid, r: TokenRequest, now: Time,
      later: Db, cfg': Config, r': TokenRequest, now': Time)
    requires r.key.NoKey? && r'.key.NoKey? && Normalised(r) && Normalised(r')
    ensures KeyOf(db, cfg, guid, r, now) == KeyOf(later, cfg', guid, r', now')
        <==> cfg.newPolicyMode == cfg'.newPolicyMode
             && if cfg.newPolicyMode.Legacy? then NameOf(db, guid, r, now) == NameOf(later, guid, r', now')
                else SameRequest(r, r')
  {
    var m, m' := cfg.newPolicyMode, cfg'.newPolicyMode;
    var p, p' := RequestedPlatform(r.platform), RequestedPlatform(r'.platform);
    KeylessKey(db, cfg, guid, r, now);
    KeylessKey(later, cfg', guid, r', now');
    if KeyOf(db, cfg, guid, r, now) == KeyOf(later, cfg', guid, r', now') {
      KindsDiffer(NameOf(db, guid, r, now), r'.displayName, p', m');
      KindsDiffer(NameOf(later, guid, r', now'), r.displayName, p, m);
      if m.Legacy? {
        LegacyKeyInjective(NameOf(db, guid, r, now), NameOf(later, guid, r', now'));
      } else {
        CompatibilityKeyInjective(r.displayName, p, m, r'.displayName, p', m');
      }
    }
  }

  /** An identical keyless repeat comes under the same key if and only if the mode is the same and,
      for an unnamed request in legacy mode, as many slots are taken as were the first time. */
  lemma RepeatKeysAgree(
      db: Db, cfg: Config, guid: Guid, r: TokenRequest, now: Time, later: Db, cfg': Config, now': Time)
    requires r.key.NoKey? && Normalised(r)
    ensures KeyOf(db, cfg, guid, r, now) == KeyOf(later, cfg', guid, r, now')
        <==> cfg.newPolicyMode == cfg'.newPolicyMode
             && (cfg.newPolicyMode.Legacy? && r.displayName.None? ==>
                   CountOccupied(db.devices, guid, now) == CountOccupied(later.devices, guid, now'))
  {
    KeylessKeysAgree(db, cfg, guid, r, now, later, cfg', r, now');
    DefaultNamesDiffer(NextSlot(db, guid, now), NextSlot(later, guid, now'));
  }

  lemma DefaultNamesDiffer(m: nat, n: nat)
    ensures DefaultDisplayName(m) == DefaultDisplayName(n) ==> m == n
  {
    if DefaultDisplayName(m) == DefaultDisplayName(n) {
      var prefix := "Устройство ";
      assert DefaultDisplayName(m)[|prefix|..] == Decimal(m) && DefaultDisplayName(n)[|prefix|..] == Decimal(n);
      DecimalInjective(m, n);
    }
  }

  /* ---------- when a request creates a device ---------- */

  /** A keyless legacy request finds an unkeyed row of its name, with a stored credential, to adopt. */
  predicate MayAdopt(db: Db, cfg: Config, guid: Guid, r: TokenRequest, now: Time) {
    r.key.NoKey? && cfg.newPolicyMode.Legacy?
    && var t := ExpirePending(db.devices, guid, now);
       var legacy := FindLegacy(t, guid, NameOf(db, guid, r, now));
       legacy.Some? && t[legacy.value].credential.Complete()
  }

  /** What a request asks of the state it finds in order to create a device. */
  predicate MayCreate(db: Db, cfg: Config, guid: Guid, r: TokenRequest, draw: Draw, now: Time) {
    && Admitted(db, cfg, guid, r, now)
    && FindKey(db.devices, guid, KeyOf(db, cfg, guid, r, now)).None?
    && !MayAdopt(db, cfg, guid, r, now)
    && CountOccupied(db.devices, guid, now) < db.entitlements[guid].max
    && !PublicIdTaken(db.devices, draw.publicId)
  }

  lemma ExpiryKeepsKeys(t: Table, sub: Guid, key: string, now: Time)
    ensures FindKey(ExpirePending(t, sub, now), sub, key).None? <==> FindKey(t, sub, key).None?
  {
    var u := ExpirePending(t, sub, now);
    forall i | 0 <= i < |t| ensures u[i].sub == t[i].sub && u[i].issuanceKey == t[i].issuanceKey {
    }
    var found, other := FindKey(t, sub, key), FindKey(u, sub, key);
    if found.Some? {
      assert u[found.value].issuanceKey == Some(key);
    }
    if other.Some? {
      assert t[other.value].issuanceKey == Some(key);
    }
  }

  lemma IssueTokenCreates(t: Table, cfg: Config, guid: Guid, max: int, r: TokenRequest, draw: Draw, now: Time)
    ensures
      var slots := CountActive(t, guid) + CountPending(t, guid, now);
      var name := r.displayName.GetOr(DefaultDisplayName(slots + 1));
      var legacy := FindLegacy(t, guid, name);
      var (u, result) := IssueToken(t, cfg, guid, max, r, draw, now);
      && (result.TokenCreated?
          <==> && (r.key.NoKey? ==> !cfg.requireIssuanceKey)
               && FindKey(t, guid, EffectiveKey(cfg, r, name)).None?
               && !(r.key.NoKey? && cfg.newPolicyMode.Legacy? && legacy.Some? && t[legacy.value].credential.Complete())
               && slots < max)
      && |u| == |t| + (if result.TokenCreated? then 1 else 0)
      && (result.TokenCreated? ==> u[|t|].publicId == draw.publicId && u[..|t|] == t)
  {
  }

  /** The table with the new row is committed exactly when its public id is new. */
  lemma IssueTokenCommits(t: Table, cfg: Config, guid: Guid, max: int, r: TokenRequest, draw: Draw, now: Time)
    requires UniqueIndexes(t)
    ensures
      var (u, result) := IssueToken(t, cfg, guid, max, r, draw, now);
      result.TokenCreated? ==> (UniqueIndexes(u) <==> !PublicIdTaken(t, draw.publicId))
  {
    IssueTokenCreates(t, cfg, guid, max, r, draw, now);
    if PublicIdTaken(t, draw.publicId) {
      TakenBreaksIndex(t, IssueToken(t, cfg, guid, max, r, draw, now).0, draw.publicId);
    } else {
      IssueTokenUnique(t, cfg, guid, max, r, draw, now);
    }
  }

  lemma CreatedMeansIssued(db: Db, cfg: Config, guid: Guid, r: TokenRequest, draw: Draw, now: Time)
    requires guid in db.entitlements
    ensures
      var t := ExpirePending(db.devices, guid, now);
      var (u, result) := IssueToken(t, cfg, guid, db.entitlements[guid].max, r, draw, now);
      CreateToken(db, cfg, guid, r, draw, now).result.TokenCreated?
      <==> Opened(db, guid, r, now) && result.TokenCreated? && UniqueIndexes(u)
  {
  }

  /** A row is added exactly when a device is created. */
  lemma CreatedAddsRow(db: Db, cfg: Config, guid: Guid, r: TokenRequest, draw: Draw, now: Time)
    ensures
      var outcome := CreateToken(db, cfg, guid, r, draw, now);
      |outcome.db.devices| == |db.devices| + (if outcome.result.TokenCreated? then 1 else 0)
  {
    if guid in db.entitlements {
      var t := ExpirePending(db.devices, guid, now);
      IssueTokenCreates(t, cfg, guid, db.entitlements[guid].max, r, draw, now);
      assert |t| == |db.devices|;
    }
  }

  /** A request creates a device exactly when the state it finds meets the guard. */
  lemma CreatesExactly(db: Db, cfg: Config, guid: Guid, r: TokenRequest, draw: Draw, now: Time)
    requires UniqueIndexes(db.devices)
    ensures CreateToken(db, cfg, guid, r, draw, now).result.TokenCreated? <==> MayCreate(db, cfg, guid, r, draw, now)
  {
    var t := ExpirePending(db.devices, guid, now);
    SlotIsOccupancy(db, guid, now);
    ExpiryKeepsKeys(db.devices, guid, KeyOf(db, cfg, guid, r, now), now);
    ExpireKeepsIndexed(db.devices, guid, now, draw.publicId);
    ExpireUnique(db.devices, guid, now);
    if guid in db.entitlements {
      CreatedMeansIssued(db, cfg, guid, r, draw, now);
      IssueTokenCreates(t, cfg, guid, db.entitlements[guid].max, r, draw, now);
      IssueTokenCommits(t, cfg, guid, db.entitlements[guid].max, r, draw, now);
    }
  }

  lemma TakenBreaksIndex(t: Table, u: Table, publicId: string)
    requires PublicIdTaken(t, publicId)
    ensures |u| == |t| + 1 && u[..|t|] == t && u[|t|].publicId == publicId ==> !UniqueIndexes(u)
  {
    var i :| 0 <= i < |t| && t[i].publicId == publicId;
    if |u| == |t| + 1 && u[..|t|] == t && u[|t|].publicId == publicId {
      assert u[i] == u[..|t|][i];
      assert Clash(u[i], u[|t|]);
    }
  }

  /** An identical keyless repeat, after any run: it creates a second device exactly when it comes under
      another key, because the mode changed or, unnamed in legacy mode, the number of taken slots did,
      and the state it finds lets a request under that key create one. */
  lemma RepeatCreatesExactly(
      db: Db, cfg: Config, guid: Guid, r: TokenRequest, draw: Draw, now: Time,
      events: seq<Event>, cfg': Config, draw': Draw, now': Time)
    requires TableInvariant(db.devices) && UniqueIndexes(db.devices) && r.key.NoKey? && Normalised(r)
    requires NamesDevice(CreateToken(db, cfg, guid, r, draw, now).result)
    ensures
      var later := Run(CreateToken(db, cfg, guid, r, draw, now).db, events);
      var repeat := CreateToken(later, cfg', guid, r, draw', now');
      && (|repeat.db.devices| > |later.devices| <==> repeat.result.TokenCreated?)
      && (repeat.result.TokenCreated?
          <==> && (cfg.newPolicyMode != cfg'.newPolicyMode
                   || (cfg.newPolicyMode.Legacy? && r.displayName.None?
                       && CountOccupied(db.devices, guid, now) != CountOccupied(later.devices, guid, now')))
               && MayCreate(later, cfg', guid, r, draw', now'))
  {
    var first := CreateToken(db, cfg, guid, r, draw, now).db;
    var later := Run(first, events);
    IssuedUnique(db, cfg, guid, r, draw, now);
    RunUnique(first, events);
    CreatesExactly(later, cfg', guid, r, draw', now');
    CreatedAddsRow(later, cfg', guid, r, draw', now');
    RepeatKeysAgree(db, cfg, guid, r, now, later, cfg', now');
    ExactlyOnce(db, cfg, guid, r, draw, now, events, cfg', r, draw', now');
  }

  /* ---------- an unnamed legacy request, twice ---------- */

  const TWICE_CFG := Config(10, 10, 0, BindingOff, Legacy, 1, false, {"k"}, {})
  const UNNAMED := TokenRequest(None, NoPlatform, NoKey)

  function TwiceDraw(publicId: string): Draw {
    Draw(publicId, "s", Protected("k", "n", "c", "t"))
  }

  /** The same request, an instant apart, on a subscription of two slots. */
  const TWICE_RUN := [
    Event(OpCreateSubscription("g", None, Entitlement(1, "active", None, 2)), 0),
    Event(OpCreateToken(TWICE_CFG, "g", UNNAMED, TwiceDraw("1")), 0),
    Event(OpCreateToken(TWICE_CFG, "g", UNNAMED, TwiceDraw("2")), 1)]

  function UnnamedLink(publicId: string, slot: nat, at: Time): Device {
    IssuedLink(TWICE_CFG, "g", TwiceDraw(publicId), DefaultDisplayName(slot), LegacyKey(DefaultDisplayName(slot)),
               RequestHash("g", UNNAMED), None, at)
  }

  const TWICE_START := Step(EMPTY, TWICE_RUN[0])

  /** A table of at most one keyed, pending row that does not hold the key of the next slot. */
  predicate ReadyForUnnamed(t: Table, at: Time) {
    |t| < 2 && UniqueIndexes(t)
    && forall i :: 0 <= i < |t| ==>
         IsPending(t[i], "g", at) && t[i].issuanceKey.Some?
         && t[i].issuanceKey != Some(LegacyKey(DefaultDisplayName(|t| + 1)))
  }

  lemma PendingCounts(t: Table, at: Time)
    requires ReadyForUnnamed(t, at)
    ensures CountActive(t, "g") == 0 && CountPending(t, "g", at) == |t|
  {
    assert ActiveIds(t, "g") == {};
    assert PendingIds(t, "g", at) == if |t| == 0 then {} else {0};
  }

  lemma UnnamedIssues(t: Table, publicId: string, at: Time)
    requires ReadyForUnnamed(t, at)
    ensures
      var (u, result) := IssueToken(t, TWICE_CFG, "g", 2, UNNAMED, TwiceDraw(publicId), at);
      result.TokenCreated? && u == t + [UnnamedLink(publicId, |t| + 1, at)]
  {
    PendingCounts(t, at);
    assert FindKey(t, "g", LegacyKey(DefaultDisplayName(|t| + 1))).None?;
    assert FindLegacy(t, "g", DefaultDisplayName(|t| + 1)).None?;
  }

  lemma UnnamedCreates(db: Db, publicId: string, at: Time)
    requires db.subscriptions == {"g"} && db.entitlements == map["g" := Entitlement(1, ACTIVE, None, 2)]
    requires ReadyForUnnamed(db.devices, at) && !PublicIdTaken(db.devices, publicId)
    ensures
      var outcome := CreateToken(db, TWICE_CFG, "g", UNNAMED, TwiceDraw(publicId), at);
      outcome.result.TokenCreated?
      && outcome.db == db.(devices := db.devices + [UnnamedLink(publicId, |db.devices| + 1, at)])
  {
    assert ExpirePending(db.devices, "g", at) == db.devices;
    UnnamedIssues(db.devices, publicId, at);
    AppendUnique(db.devices, UnnamedLink(publicId, |db.devices| + 1, at));
  }

  lemma UnnamedStep(db: Db, publicId: string, at: Time)
    requires db.subscriptions == {"g"} && db.entitlements == map["g" := Entitlement(1, ACTIVE, None, 2)]
    requires ReadyForUnnamed(db.devices, at) && !PublicIdTaken(db.devices, publicId)
    ensures Step(db, Event(OpCreateToken(TWICE_CFG, "g", UNNAMED, TwiceDraw(publicId)), at))
         == db.(devices := db.devices + [UnnamedLink(publicId, |db.devices| + 1, at)])
  {
    UnnamedCreates(db, publicId, at);
  }

  /** The second of two identical requests creates a second device. */
  lemma UnnamedRepeatCreates()
    ensures Run(EMPTY, TWICE_RUN).devices == [UnnamedLink("1", 1, 0), UnnamedLink("2", 2, 1)]
  {
    var first, second := UnnamedLink("1", 1, 0), UnnamedLink("2", 2, 1);
    UnnamedStep(TWICE_START, "1", 0);
    assert TWICE_START.devices + [first] == [first];
    if LegacyKey(DefaultDisplayName(1)) == LegacyKey(DefaultDisplayName(2)) {
      LegacyKeyInjective(DefaultDisplayName(1), DefaultDisplayName(2));
    }
    DefaultNamesDiffer(1, 2);
    assert first.publicId == "1" && "1"[0] != "2"[0];
    UnnamedStep(TWICE_START.(devices := [first]), "2", 1);
    assert [first] + [second] == [first, second];
    RunThree(EMPTY, TWICE_RUN[0], TWICE_RUN[1], TWICE_RUN[2], []);
    assert TWICE_RUN == [TWICE_RUN[0], TWICE_RUN[1], TWICE_RUN[2]] + [];
  }
}
