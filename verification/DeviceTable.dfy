/** The device_access_tokens table and the SQL statements that read and write it.  A row's
    id is its index: ids are assigned in insertion order and rows are never deleted. */
module DeviceTable {
  import opened Text
  import opened Canonical
  import opened DevicePolicy

  datatype Channel = DeviceLink | UnifiedFeed
  datatype DeviceState = LegacyState | Provisioning | ProvisioningFailed | ActiveState | Disabled
  datatype Reason = UserRevoked | ResetAll | Regenerated | Transferred | ExpiredPending

  /** An encrypted copy of the secret, stored in four nullable columns. */
  datatype Protected = Protected(keyId: string, nonce: string, ciphertext: string, tag: string)

  datatype CredentialColumns = CredentialColumns(
    keyId: Option<string>, nonce: Option<string>, ciphertext: Option<string>, tag: Option<string>)
  {
    predicate Complete() {
      keyId.Some? && nonce.Some? && ciphertext.Some? && tag.Some?
    }

    predicate Erased() {
      keyId.None? && nonce.None? && ciphertext.None? && tag.None?
    }

    function Get(): Protected
      requires Complete()
    {
      Protected(keyId.value, nonce.value, ciphertext.value, tag.value)
    }
  }

  const NO_CREDENTIAL := CredentialColumns(None, None, None, None)

  function Columns(p: Protected): CredentialColumns {
    CredentialColumns(Some(p.keyId), Some(p.nonce), Some(p.ciphertext), Some(p.tag))
  }

  /** Where a row came from.  The table does not store this; it is history that no
      operation reads, kept so that replacement chains can be stated. */
  datatype Origin = Issued | RegeneratedFrom(source: nat) | TransferredFrom(source: nat)
  {
    predicate Replaces(id: nat) {
      !Issued? && source == id
    }
  }

  datatype Device = Device(
    sub: Guid,
    publicId: string,
    secretHash: string,
    displayName: string,
    pendingExpiresAt: Option<Time>,
    activatedAt: Option<Time>,
    revokedAt: Option<Time>,
    revocationReason: Option<Reason>,
    credential: CredentialColumns,
    issuanceKey: Option<string>,
    issuanceHash: Option<string>,
    requestedPlatform: Option<Platform>,
    policy: FeedPolicy,
    lastTransferAt: Option<Time>,
    transferCount: nat,
    channel: Channel,
    state: DeviceState,
    provisioningExpiresAt: Option<Time>,
    origin: Origin)

  type Table = seq<Device>

  /* ---------- counting ---------- */

  predicate IsActive(d: Device, sub: Guid) {
    d.sub == sub && d.revokedAt.None? && d.activatedAt.Some?
  }

  predicate IsPending(d: Device, sub: Guid, now: Time) {
    d.sub == sub && d.revokedAt.None? && d.activatedAt.None?
    && (d.pendingExpiresAt.None? || d.pendingExpiresAt.value > now)
  }

  /** A row takes a slot while it is active or its reservation has not run out. */
  predicate Live(d: Device, now: Time) {
    d.revokedAt.None? && (d.activatedAt.Some? || d.pendingExpiresAt.None? || d.pendingExpiresAt.value > now)
  }

  predicate Occupies(d: Device, sub: Guid, now: Time) {
    d.sub == sub && Live(d, now)
  }

  function ActiveIds(t: Table, sub: Guid): set<nat> {
    set i: nat | i < |t| && IsActive(t[i], sub)
  }

  function PendingIds(t: Table, sub: Guid, now: Time): set<nat> {
    set i: nat | i < |t| && IsPending(t[i], sub, now)
  }

  function OccupiedIds(t: Table, sub: Guid, now: Time): set<nat> {
    set i: nat | i < |t| && Occupies(t[i], sub, now)
  }

  function CountActive(t: Table, sub: Guid): nat {
    |ActiveIds(t, sub)|
  }

  function CountPending(t: Table, sub: Guid, now: Time): nat {
    |PendingIds(t, sub, now)|
  }

  function CountOccupied(t: Table, sub: Guid, now: Time): nat {
    |OccupiedIds(t, sub, now)|
  }

  /* ---------- selecting ---------- */

  /** The last row, in id order, that satisfies a WHERE clause. */
  function FindLast(t: Table, where: Device -> bool): (r: Option<nat>)
    ensures r.Some? ==> r.value < |t| && where(t[r.value])
    ensures r.Some? ==> forall i :: r.value < i < |t| ==> !where(t[i])
    ensures r.None? ==> forall i :: 0 <= i < |t| ==> !where(t[i])
  {
    if |t| == 0 then None
    else if where(t[|t| - 1]) then Some(|t| - 1)
    else FindLast(t[..|t| - 1], where)
  }

  function FindDevice(t: Table, sub: Guid, publicId: string): (r: Option<nat>)
    ensures r.Some? ==> r.value < |t| && t[r.value].sub == sub && t[r.value].publicId == publicId
    ensures r.None? ==> forall i :: 0 <= i < |t| ==> !(t[i].sub == sub && t[i].publicId == publicId)
  {
    FindLast(t, (d: Device) => d.sub == sub && d.publicId == publicId)
  }

  function FindKey(t: Table, sub: Guid, key: string): (r: Option<nat>)
    ensures r.Some? ==> r.value < |t| && t[r.value].sub == sub && t[r.value].issuanceKey == Some(key)
    ensures r.None? ==> forall i :: 0 <= i < |t| ==> !(t[i].sub == sub && t[i].issuanceKey == Some(key))
  {
    FindLast(t, (d: Device) => d.sub == sub && d.issuanceKey == Some(key))
  }

  predicate IsUnified(d: Device, sub: Guid) {
    d.sub == sub && d.channel.UnifiedFeed?
  }

  function FindIdentity(t: Table, sub: Guid, identity: IdentityHash): (r: Option<nat>)
    ensures r.Some? ==> r.value < |t| && IsUnified(t[r.value], sub)
                        && t[r.value].policy.boundIdentity == Some(identity)
    ensures r.None? ==> forall i :: 0 <= i < |t| && IsUnified(t[i], sub) ==>
                          t[i].policy.boundIdentity != Some(identity)
  {
    FindLast(t, (d: Device) => IsUnified(d, sub) && d.policy.boundIdentity == Some(identity))
  }

  /** A match under the current key is preferred to one under the previous key. */
  function FindUnified(t: Table, sub: Guid, current: IdentityHash, previous: Option<IdentityHash>): (r: Option<nat>)
    ensures r.Some? ==> r.value < |t| && IsUnified(t[r.value], sub) && t[r.value].policy.boundIdentity.Some?
                        && (t[r.value].policy.boundIdentity == Some(current)
                            || t[r.value].policy.boundIdentity == previous)
    ensures r.None? ==> forall i :: 0 <= i < |t| && IsUnified(t[i], sub) && t[i].policy.boundIdentity.Some? ==>
                          t[i].policy.boundIdentity != Some(current) && t[i].policy.boundIdentity != previous
    ensures r.Some? && t[r.value].policy.boundIdentity != Some(current) ==>
              forall i :: 0 <= i < |t| && IsUnified(t[i], sub) ==> t[i].policy.boundIdentity != Some(current)
  {
    var first := FindIdentity(t, sub, current);
    if first.Some? || previous.None? then first else FindIdentity(t, sub, previous.value)
  }

  predicate LegacyCandidate(d: Device, sub: Guid, name: string) {
    d.sub == sub && d.displayName == name && d.revokedAt.None? && d.issuanceKey.None? && d.policy.mode.Legacy?
  }

  /** Rows with a stored credential first, then the newest. */
  function FindLegacy(t: Table, sub: Guid, name: string): (r: Option<nat>)
    ensures r.Some? ==> r.value < |t| && LegacyCandidate(t[r.value], sub, name)
  {
    var complete := FindLast(t, (d: Device) => LegacyCandidate(d, sub, name) && d.credential.Complete());
    if complete.Some? then complete else FindLast(t, (d: Device) => LegacyCandidate(d, sub, name))
  }

  /* ---------- updating ---------- */

  function UpdateAll(t: Table, f: Device -> Device): (r: Table)
    ensures |r| == |t| && forall i :: 0 <= i < |t| ==> r[i] == f(t[i])
  {
    seq(|t|, i requires 0 <= i < |t| => f(t[i]))
  }

  function ExpireRow(d: Device, sub: Guid, now: Time): Device {
    if d.sub == sub && d.revokedAt.None? && d.activatedAt.None?
       && d.pendingExpiresAt.Some? && d.pendingExpiresAt.value <= now
    then d.(revokedAt := Some(now), revocationReason := Some(ExpiredPending))
    else d
  }

  function ExpirePending(t: Table, sub: Guid, now: Time): (r: Table)
    ensures |r| == |t| && forall i :: 0 <= i < |t| ==> r[i] == ExpireRow(t[i], sub, now)
  {
    UpdateAll(t, (d: Device) => ExpireRow(d, sub, now))
  }

  /** RevokeDeviceTokenById leaves the feed state alone. */
  function RevokeRow(d: Device, now: Time, reason: Reason): Device {
    d.(revokedAt := Coalesce(d.revokedAt, Some(now)),
       revocationReason := Coalesce(d.revocationReason, Some(reason)),
       credential := NO_CREDENTIAL)
  }

  /** The user-facing revocations also disable a unified row. */
  function DisableRow(d: Device, now: Time, reason: Reason): Device {
    RevokeRow(d, now, reason).(state := if d.channel.UnifiedFeed? then Disabled else d.state)
  }

  function ResetAllRows(t: Table, sub: Guid, now: Time): (r: Table)
    ensures |r| == |t|
    ensures forall i :: 0 <= i < |t| ==>
      r[i] == if t[i].sub == sub && t[i].revokedAt.None? then DisableRow(t[i], now, ResetAll) else t[i]
  {
    UpdateAll(t, (d: Device) => if d.sub == sub && d.revokedAt.None? then DisableRow(d, now, ResetAll) else d)
  }

  function ReleaseKey(d: Device): Device {
    if d.issuanceKey.Some? then d.(issuanceKey := None, issuanceHash := None) else d
  }

  /** Backfill writes the four columns only when one of them is missing. */
  function Backfill(d: Device, p: Protected): Device {
    if d.credential.Complete() then d else d.(credential := Columns(p))
  }

  function MarkUsed(d: Device, now: Time): Device {
    d.(activatedAt := Coalesce(d.activatedAt, Some(now)))
  }

  function Reserve(d: Device, until: Time): Device {
    d.(pendingExpiresAt := Some(until), provisioningExpiresAt := Some(until), state := Provisioning)
  }

  function ObserveIdentity(d: Device, platform: Option<string>, displayName: string, current: IdentityHash): Device {
    d.(displayName := displayName,
       policy := d.policy.(
         boundPlatform := Coalesce(platform, d.policy.boundPlatform),
         boundIdentity := Some(current)))
  }

  /* ---------- unique indexes ---------- */

  predicate PublicIdClash(a: Device, b: Device) {
    a.publicId == b.publicId
  }

  predicate KeyClash(a: Device, b: Device) {
    a.sub == b.sub && a.issuanceKey.Some? && a.issuanceKey == b.issuanceKey
  }

  predicate IdentityClash(a: Device, b: Device) {
    a.sub == b.sub && a.channel.UnifiedFeed? && b.channel.UnifiedFeed?
    && a.policy.boundIdentity.Some? && a.policy.boundIdentity == b.policy.boundIdentity
  }

  predicate Clash(a: Device, b: Device) {
    PublicIdClash(a, b) || KeyClash(a, b) || IdentityClash(a, b)
  }

  predicate UniqueIndexes(t: Table) {
    forall i, j :: 0 <= i < j < |t| ==> !Clash(t[i], t[j])
  }

  /* ---------- lemmas about counts ---------- */

  lemma {:induction false} SubsetCount<T>(a: set<T>, b: set<T>)
    requires a <= b
    ensures |a| <= |b|
  {
    assert b == a + (b - a);
  }

  /** The two counts of the personal-link operations are the one count of the feed. */
  lemma ActiveAndPendingAreOccupied(t: Table, sub: Guid, now: Time)
    ensures CountActive(t, sub) + CountPending(t, sub, now) == CountOccupied(t, sub, now)
  {
    assert OccupiedIds(t, sub, now) == ActiveIds(t, sub) + PendingIds(t, sub, now);
    assert ActiveIds(t, sub) !! PendingIds(t, sub, now);
  }

  /** Occupancy only shrinks as reservations run out. */
  lemma OccupancyShrinks(t: Table, sub: Guid, earlier: Time, later: Time)
    requires earlier <= later
    ensures CountOccupied(t, sub, later) <= CountOccupied(t, sub, earlier)
  {
    SubsetCount(OccupiedIds(t, sub, later), OccupiedIds(t, sub, earlier));
  }

  /** No row has come to take a slot. */
  predicate Shrinks(t: Table, u: Table, now: Time) {
    |u| == |t| && forall i :: 0 <= i < |t| ==> u[i].sub == t[i].sub && (Live(u[i], now) ==> Live(t[i], now))
  }

  lemma ShrinkingCounts(t: Table, u: Table, sub: Guid, now: Time)
    requires Shrinks(t, u, now)
    ensures CountOccupied(u, sub, now) <= CountOccupied(t, sub, now)
  {
    SubsetCount(OccupiedIds(u, sub, now), OccupiedIds(t, sub, now));
  }

  lemma AppendCounts(t: Table, d: Device, sub: Guid, now: Time)
    ensures CountOccupied(t + [d], sub, now)
         <= CountOccupied(t, sub, now) + if Occupies(d, sub, now) then 1 else 0
  {
    var u := t + [d];
    if Occupies(d, sub, now) {
      SubsetCount(OccupiedIds(u, sub, now), OccupiedIds(t, sub, now) + {|t|});
    } else {
      SubsetCount(OccupiedIds(u, sub, now), OccupiedIds(t, sub, now));
    }
  }

  lemma WithoutOne(a: set<nat>, i: nat)
    ensures |a| == |a - {i}| + if i in a then 1 else 0
  {
    if i in a {
      assert a == (a - {i}) + {i};
    } else {
      assert a == a - {i};
    }
  }

  lemma SameWithoutOne(a: set<nat>, b: set<nat>, i: nat)
    requires forall j :: j != i ==> (j in a <==> j in b)
    ensures a - {i} == b - {i}
  {
  }

  /** Rewriting one row moves the count of its own subscription by exactly that row. */
  lemma PutCounts(t: Table, i: nat, d: Device, sub: Guid, now: Time)
    requires i < |t| && d.sub == t[i].sub
    ensures CountOccupied(t[i := d], sub, now)
         == CountOccupied(t, sub, now)
            + (if Occupies(d, sub, now) then 1 else 0) - (if Occupies(t[i], sub, now) then 1 else 0)
  {
    var before, after := OccupiedIds(t, sub, now), OccupiedIds(t[i := d], sub, now);
    SameWithoutOne(before, after, i);
    WithoutOne(before, i);
    WithoutOne(after, i);
  }

  lemma ExpiringKeepsOccupancy(t: Table, sub: Guid, other: Guid, now: Time)
    ensures CountOccupied(ExpirePending(t, sub, now), other, now) == CountOccupied(t, other, now)
  {
    assert OccupiedIds(ExpirePending(t, sub, now), other, now) == OccupiedIds(t, other, now);
  }
}
