/** One row per HWID: the feed never breaks its identity index, a HWID gets a second row exactly
    when its first was hashed under a key that is no longer configured, and a disabled HWID stays
    out until it is enabled. */
module IdentityRows {
  import opened Text
  import opened Canonical
  import opened DevicePolicy
  import opened DeviceTable
  import opened Registry
  import opened Lifecycle
  import opened Uniqueness

  predicate OwnedBy(d: Device, sub: Guid, hwid: string) {
    IsUnified(d, sub) && d.policy.boundIdentity.Some? && d.policy.boundIdentity.value.hwid == hwid
  }

  predicate SameHwid(a: Device, b: Device) {
    a.policy.boundIdentity.Some? && a.channel.UnifiedFeed? && OwnedBy(b, a.sub, a.policy.boundIdentity.value.hwid)
  }

  predicate OneRowPerHwid(t: Table) {
    forall i, j :: 0 <= i < j < |t| ==> !SameHwid(t[i], t[j])
  }

  /** Adding personal links, and changing rows as allowed, gives no HWID a second row. */
  lemma AddingLinksKeepsOneRow(t: Table, u: Table)
    requires TableInvariant(t) && TableEvolves(t, u) && OneRowPerHwid(t) && Adds(t, u, false)
    ensures OneRowPerHwid(u)
  {
    forall i, j | 0 <= i < j < |u| ensures !SameHwid(u[i], u[j]) {
      if j < |t| {
        assert Evolves(t[i], u[i]) && Evolves(t[j], u[j]) && RowInvariant(t[i]) && RowInvariant(t[j]);
        assert !SameHwid(t[i], t[j]);
      }
    }
  }

  /* ---------- resolving ---------- */

  /** The stored hash can be recomputed from the header with a configured key. */
  predicate Covers(keys: IdentityKeys, bound: IdentityHash) {
    keys.current.Some? && (keys.current.value == bound.key || keys.previous == Some(bound.key))
  }

  /** The HWID has a row, but one whose hash neither configured key reproduces. */
  predicate Stranded(t: Table, sub: Guid, hwid: string, keys: IdentityKeys) {
    exists i :: 0 <= i < |t| && OwnedBy(t[i], sub, hwid) && !Covers(keys, t[i].policy.boundIdentity.value)
  }

  /** Everything an inserting resolve checks besides the lookup. */
  predicate MayInsert(db: Db, guid: Guid, hasToken: bool, secretVerified: bool, p: Presented, draw: Draw, now: Time) {
    Identify(p.header, p.keys).Identified? && hasToken && FeedRefusal(db, guid, secretVerified, now).None?
    && CountOccupied(db.devices, guid, now) < db.entitlements[guid].max && !PublicIdTaken(db.devices, draw.publicId)
  }

  /** Row i is the one row of its HWID in its subscription. */
  predicate SoleRow(t: Table, i: nat, sub: Guid, hwid: string) {
    i < |t| && OwnedBy(t[i], sub, hwid) && forall j :: 0 <= j < |t| && j != i ==> !OwnedBy(t[j], sub, hwid)
  }

  /** The lookup under both keys finds the row of a HWID exactly when a key covers it. */
  lemma LookupFindsSole(t: Table, sub: Guid, hwid: string, keys: IdentityKeys, i: nat)
    requires SoleRow(t, i, sub, hwid) && keys.current.Some?
    ensures
      var identity := Identify(Hwid(hwid), keys);
      FindUnified(t, sub, identity.current, identity.previous)
      == if Covers(keys, t[i].policy.boundIdentity.value) then Some(i) else None
  {
    var identity := Identify(Hwid(hwid), keys);
    var found := FindUnified(t, sub, identity.current, identity.previous);
    if found.Some? {
      assert OwnedBy(t[found.value], sub, hwid);
    }
  }

  lemma OneRowIsSole(t: Table, sub: Guid, hwid: string, i: nat)
    requires OneRowPerHwid(t) && i < |t| && OwnedBy(t[i], sub, hwid)
    ensures SoleRow(t, i, sub, hwid)
  {
    forall j | 0 <= j < |t| && j != i ensures !OwnedBy(t[j], sub, hwid) {
      assert if i < j then !SameHwid(t[i], t[j]) else !SameHwid(t[j], t[i]);
    }
  }

  lemma LookupFindsCovered(t: Table, sub: Guid, hwid: string, keys: IdentityKeys, i: nat)
    requires OneRowPerHwid(t) && i < |t| && OwnedBy(t[i], sub, hwid) && keys.current.Some?
    ensures
      var identity := Identify(Hwid(hwid), keys);
      FindUnified(t, sub, identity.current, identity.previous)
      == if Covers(keys, t[i].policy.boundIdentity.value) then Some(i) else None
  {
    OneRowIsSole(t, sub, hwid, i);
    LookupFindsSole(t, sub, hwid, keys, i);
  }

  lemma RehashUnique(t: Table, i: nat, d: Device, sub: Guid)
    requires UniqueIndexes(t) && i < |t| && IsUnified(t[i], sub) && d.policy.boundIdentity.Some?
    requires d == t[i].(policy := d.policy, pendingExpiresAt := d.pendingExpiresAt,
                        provisioningExpiresAt := d.provisioningExpiresAt, state := d.state,
                        displayName := d.displayName)
    requires t[i].policy.boundIdentity == d.policy.boundIdentity
             || FindIdentity(t, sub, d.policy.boundIdentity.value).None?
    ensures UniqueIndexes(t[i := d])
  {
    var u := t[i := d];
    forall a, b | 0 <= a < b < |u| ensures !Clash(u[a], u[b]) {
      assert !Clash(t[a], t[b]);
      if FindIdentity(t, sub, d.policy.boundIdentity.value).None? {
        assert IsUnified(t[a], sub) ==> t[a].policy.boundIdentity != d.policy.boundIdentity;
        assert IsUnified(t[b], sub) ==> t[b].policy.boundIdentity != d.policy.boundIdentity;
      }
    }
  }

  lemma InsertUnique(t: Table, d: Device, hash: IdentityHash)
    requires UniqueIndexes(t) && !PublicIdTaken(t, d.publicId)
    requires d.issuanceKey.None? && d.policy.boundIdentity == Some(hash) && FindIdentity(t, d.sub, hash).None?
    ensures UniqueIndexes(t + [d])
  {
    forall i | 0 <= i < |t| ensures !KeyClash(t[i], d) && !IdentityClash(t[i], d) {
      assert IsUnified(t[i], d.sub) ==> t[i].policy.boundIdentity != Some(hash);
    }
    AppendUnique(t, d);
  }

  lemma ResolveKnownCommits(
      db: Db, cfg: Config, guid: Guid, e: Entitlement, i: nat, identity: Identity, p: Presented,
   displayName: string, now: Time)
    requires UniqueIndexes(db.devices) && identity.Identified?
    requires FindUnified(db.devices, guid, identity.current, identity.previous) == Some(i)
    requires i < |db.devices| && IsUnified(db.devices[i], guid)
    ensures !ResolveKnown(db, cfg, guid, e, i, identity.current, p, displayName, now).result.access.AccessViolation?
  {
    var d, until := db.devices[i], now + cfg.reservationTtl;
    RehashUnique(db.devices, i, ObserveIdentity(d, p.platform, displayName, identity.current), guid);
    RehashUnique(db.devices, i, ObserveIdentity(Reserve(d, until), p.platform, displayName, identity.current), guid);
  }

  /** No resolve ever runs into the identity index, under any sequence of key rotations: only a
      repeated random public id can stop one. */
  lemma ResolveCollides(
      db: Db, cfg: Config, guid: Guid, hasToken: bool, secretVerified: bool, p: Presented,
      displayName: string, draw: Draw, now: Time)
    requires UniqueIndexes(db.devices)
    ensures Resolve(db, cfg, guid, hasToken, secretVerified, p, displayName, draw, now).result.access.AccessViolation?
            ==> PublicIdTaken(db.devices, draw.publicId)
  {
    var identity := Identify(p.header, p.keys);
    if identity.Identified? && guid in db.entitlements {
      var found := FindUnified(db.devices, guid, identity.current, identity.previous);
      if found.Some? {
        ResolveKnownCommits(db, cfg, guid, db.entitlements[guid], found.value, identity, p, displayName, now);
      } else if !PublicIdTaken(db.devices, draw.publicId) {
        InsertUnique(db.devices, NewUnified(guid, draw, displayName, p, identity.current, now + cfg.reservationTtl),
                     identity.current);
      }
    }
  }

  lemma ResolveNewInserts(
      db: Db, cfg: Config, guid: Guid, e: Entitlement, current: IdentityHash, p: Presented,
      displayName: string, draw: Draw, now: Time)
    requires UniqueIndexes(db.devices) && FindIdentity(db.devices, guid, current).None?
    ensures
      var outcome := ResolveNew(db, cfg, guid, e, current, p, displayName, draw, now);
      && (outcome.result.created
          <==> CountOccupied(db.devices, guid, now) < e.max && !PublicIdTaken(db.devices, draw.publicId))
      && outcome.db == if outcome.result.created then
                         db.(devices := db.devices + [NewUnified(guid, draw, displayName, p, current,
                                                                 now + cfg.reservationTtl)])
                       else db
  {
    var d := NewUnified(guid, draw, displayName, p, current, now + cfg.reservationTtl);
    if !PublicIdTaken(db.devices, draw.publicId) {
      InsertUnique(db.devices, d, current);
    } else {
      var i :| 0 <= i < |db.devices| && db.devices[i].publicId == draw.publicId;
      var u := db.devices + [d];
      assert Clash(u[i], u[|db.devices|]);
    }
  }

  /** When a resolve makes a row, and which. */
  lemma ResolveInserts(
      db: Db, cfg: Config, guid: Guid, hasToken: bool, secretVerified: bool, p: Presented,
      displayName: string, draw: Draw, now: Time)
    requires UniqueIndexes(db.devices)
    ensures
      var identity := Identify(p.header, p.keys);
      var outcome := Resolve(db, cfg, guid, hasToken, secretVerified, p, displayName, draw, now);
      && (outcome.result.created
          <==> MayInsert(db, guid, hasToken, secretVerified, p, draw, now)
               && FindUnified(db.devices, guid, identity.current, identity.previous).None?)
      && (if outcome.result.created then
            outcome.db == db.(devices := db.devices + [NewUnified(guid, draw, displayName, p, identity.current,
                                                                  now + cfg.reservationTtl)])
          else |outcome.db.devices| == |db.devices|)
  {
    var identity := Identify(p.header, p.keys);
    if identity.Identified? && guid in db.entitlements
       && FindUnified(db.devices, guid, identity.current, identity.previous).None? {
      ResolveNewInserts(db, cfg, guid, db.entitlements[guid], identity.current, p, displayName, draw, now);
    }
  }

  /** A resolve leaves one row per HWID exactly when it does not insert for a HWID whose row is
      stranded. */
  predicate Strands(db: Db, e: Event) {
    e.op.OpResolve? && MayInsert(db, e.op.guid, e.op.hasToken, e.op.secretVerified, e.op.presented, e.op.draw, e.at)
    && Stranded(db.devices, e.op.guid, e.op.presented.header.value, e.op.presented.keys)
  }

  lemma InsertOneRow(t: Table, d: Device, hwid: string)
    requires OneRowPerHwid(t) && OwnedBy(d, d.sub, hwid)
    ensures OneRowPerHwid(t + [d]) <==> forall i :: 0 <= i < |t| ==> !OwnedBy(t[i], d.sub, hwid)
  {
    var u := t + [d];
    if forall i :: 0 <= i < |t| ==> !OwnedBy(t[i], d.sub, hwid) {
      forall i, j | 0 <= i < j < |u| ensures !SameHwid(u[i], u[j]) {
        if j < |t| {
          assert !SameHwid(t[i], t[j]);
        } else {
          assert !OwnedBy(t[i], d.sub, hwid);
        }
      }
    } else {
      var i :| 0 <= i < |t| && OwnedBy(t[i], d.sub, hwid);
      assert SameHwid(u[i], u[|t|]);
    }
  }

  /** Under one row per HWID, a lookup that misses leaves only stranded rows. */
  lemma MissMeansStranded(t: Table, sub: Guid, hwid: string, keys: IdentityKeys)
    requires OneRowPerHwid(t) && keys.current.Some?
    ensures
      var identity := Identify(Hwid(hwid), keys);
      (FindUnified(t, sub, identity.current, identity.previous).None?
       && exists i :: 0 <= i < |t| && OwnedBy(t[i], sub, hwid)) <==> Stranded(t, sub, hwid, keys)
  {
    if i :| 0 <= i < |t| && OwnedBy(t[i], sub, hwid) {
      LookupFindsCovered(t, sub, hwid, keys, i);
    }
    if Stranded(t, sub, hwid, keys) {
      var i :| 0 <= i < |t| && OwnedBy(t[i], sub, hwid) && !Covers(keys, t[i].policy.boundIdentity.value);
      LookupFindsCovered(t, sub, hwid, keys, i);
    }
  }

  lemma ResolveOneRow(
      db: Db, cfg: Config, guid: Guid, hasToken: bool, secretVerified: bool, p: Presented,
      displayName: string, draw: Draw, now: Time)
    requires TableInvariant(db.devices) && UniqueIndexes(db.devices) && OneRowPerHwid(db.devices)
    ensures
      OneRowPerHwid(Resolve(db, cfg, guid, hasToken, secretVerified, p, displayName, draw, now).db.devices)
      <==> !(MayInsert(db, guid, hasToken, secretVerified, p, draw, now)
             && Stranded(db.devices, guid, p.header.value, p.keys))
  {
    var outcome := Resolve(db, cfg, guid, hasToken, secretVerified, p, displayName, draw, now);
    ResolveInserts(db, cfg, guid, hasToken, secretVerified, p, displayName, draw, now);
    ResolveGood(db, cfg, guid, hasToken, secretVerified, p, displayName, draw, now);
    if MayInsert(db, guid, hasToken, secretVerified, p, draw, now) {
      MissMeansStranded(db.devices, guid, p.header.value, p.keys);
    }
    if outcome.result.created {
      var d := outcome.db.devices[|db.devices|];
      InsertOneRow(db.devices, d, p.header.value);
    } else {
      AddingLinksKeepsOneRow(db.devices, outcome.db.devices);
    }
  }

  lemma StepOneRowExactly(db: Db, e: Event)
    requires TableInvariant(db.devices) && UniqueIndexes(db.devices) && OneRowPerHwid(db.devices)
    ensures OneRowPerHwid(Step(db, e).devices) <==> !Strands(db, e)
  {
    if e.op.OpResolve? {
      ResolveOneRow(db, e.op.cfg, e.op.guid, e.op.hasToken, e.op.secretVerified, e.op.presented,
                    e.op.displayName, e.op.draw, e.at);
    } else {
      StepGood(db, e);
      AddingLinksKeepsOneRow(db.devices, Step(db, e).devices);
    }
  }

  predicate OneRowRun(db: Db, events: seq<Event>)
    decreases |events|
  {
    |events| == 0 || (OneRowPerHwid(Step(db, events[0]).devices) && OneRowRun(Step(db, events[0]), events[1..]))
  }

  predicate StrandsNothing(db: Db, events: seq<Event>)
    decreases |events|
  {
    |events| == 0 || (!Strands(db, events[0]) && StrandsNothing(Step(db, events[0]), events[1..]))
  }

  /** One row per HWID in every state of a run, if and only if no resolve of the run inserts for a
      HWID whose row is stranded. */
  lemma {:induction false} OneRowExactly(db: Db, events: seq<Event>)
    requires TableInvariant(db.devices) && UniqueIndexes(db.devices) && OneRowPerHwid(db.devices)
    ensures OneRowRun(db, events) <==> StrandsNothing(db, events)
    decreases |events|
  {
    if |events| > 0 {
      StepOneRowExactly(db, events[0]);
      StepGood(db, events[0]);
      StepUnique(db, events[0]);
      if OneRowPerHwid(Step(db, events[0]).devices) {
        OneRowExactly(Step(db, events[0]), events[1..]);
      }
    }
  }
}
