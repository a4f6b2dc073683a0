/** The canonical payloads that are hashed into request fingerprints.  SHA-256 is
    treated as injective, so a fingerprint is represented by its payload. */
module Canonical {
  import opened Text

  /** A GUID in its fixed textual form, which contains neither separator. */
  type Guid = s: string | '\n' !in s && '\0' !in s witness "0"

  /** A UTC instant in ticks. */
  type Time = int

  /** Any injective, separator-free rendering of a UTC instant serves the proofs; the
      program uses the round-trip format. */
  function FormatInstant(t: Time): (s: string)
    ensures |s| > 0 && '\n' !in s
  {
    Decimal(t)
  }

  function FormatOptionalInstant(t: Option<Time>): (s: string)
    ensures '\n' !in s
  {
    match t
    case Some(v) => FormatInstant(v)
    case None => ""
  }

  const ACTIVE := "active"
  const DISABLED := "disabled"
  const EXPIRED := "expired"

  predicate IsEntitlementStatus(status: string) {
    status == ACTIVE || status == DISABLED || status == EXPIRED
  }

  function EntitlementPayload(
      guid: Guid, operationType: string, expectedVersion: int, status: string,
      validUntil: Option<Time>, maxDeviceTokens: int): string
  {
    guid + "\n" + Trim(operationType) + "\n" + Decimal(expectedVersion) + "\n" + Trim(status)
    + "\n" + FormatOptionalInstant(validUntil) + "\n" + Decimal(maxDeviceTokens)
  }

  lemma OptionalInstantInjective(a: Option<Time>, b: Option<Time>)
    requires FormatOptionalInstant(a) == FormatOptionalInstant(b)
    ensures a == b
  {
    if a.Some? && b.Some? {
      DecimalInjective(a.value, b.value);
    }
  }

  lemma StatusHasNoNewline(status: string)
    requires IsEntitlementStatus(status)
    ensures Trim(status) == status && '\n' !in status
  {
    assert TrimStart(status) == status;
    assert TrimEnd(status) == status;
  }

  /** The operation type may contain newlines; the payload still determines every field,
      because the fields to its right do not and the GUID to its left does not. */
  lemma EntitlementPayloadInjective(
      guid: Guid, kind: string, version: int, status: string, until: Option<Time>, max: int,
      guid': Guid, kind': string, version': int, status': string, until': Option<Time>, max': int)
    requires IsEntitlementStatus(status) && IsEntitlementStatus(status')
    requires EntitlementPayload(guid, kind, version, status, until, max)
          == EntitlementPayload(guid', kind', version', status', until', max')
    ensures guid == guid' && Trim(kind) == Trim(kind') && version == version'
    ensures status == status' && until == until' && max == max'
  {
    StatusHasNoNewline(status);
    StatusHasNoNewline(status');
    var a1, b1 := guid + "\n" + Trim(kind), guid' + "\n" + Trim(kind');
    var a2, b2 := a1 + "\n" + Decimal(version), b1 + "\n" + Decimal(version');
    var a3, b3 := a2 + "\n" + status, b2 + "\n" + status';
    var a4, b4 := a3 + "\n" + FormatOptionalInstant(until), b3 + "\n" + FormatOptionalInstant(until');
    SplitAtLast(a4, Decimal(max), b4, Decimal(max'), '\n');
    SplitAtLast(a3, FormatOptionalInstant(until), b3, FormatOptionalInstant(until'), '\n');
    SplitAtLast(a2, status, b2, status', '\n');
    SplitAtLast(a1, Decimal(version), b1, Decimal(version'), '\n');
    DecimalInjective(max, max');
    DecimalInjective(version, version');
    OptionalInstantInjective(until, until');
    SplitAtFirst(guid, Trim(kind), guid', Trim(kind'), '\n');
  }

  /** A normalised platform: at most 32 ASCII letters, digits, dashes and underscores. */
  type Platform = s: string | '\0' !in s witness "android"

  const ISSUANCE_DOMAIN := "device-issuance-request:v2"

  /** Names reach this function through a filter that maps blank text to null, so an
      empty name never competes with an absent one. */
  predicate NormalisedName(name: Option<string>) {
    name.Some? ==> name.value != ""
  }

  function OptionalPlatform(platform: Option<Platform>): string {
    match platform
    case Some(p) => p
    case None => ""
  }

  predicate NormalisedPlatform(platform: Option<Platform>) {
    platform.Some? ==> platform.value != ""
  }

  function IssuancePayload(guid: Guid, name: Option<string>, platform: Option<Platform>): string {
    ISSUANCE_DOMAIN + "\0" + guid + "\0" + name.GetOr("") + "\0" + OptionalPlatform(platform)
  }

  /** The display name may contain NUL characters. */
  lemma IssuancePayloadInjective(
      guid: Guid, name: Option<string>, platform: Option<Platform>,
      guid': Guid, name': Option<string>, platform': Option<Platform>)
    requires NormalisedName(name) && NormalisedName(name')
    requires NormalisedPlatform(platform) && NormalisedPlatform(platform')
    requires IssuancePayload(guid, name, platform) == IssuancePayload(guid', name', platform')
    ensures guid == guid' && name == name' && platform == platform'
  {
    var a, b := ISSUANCE_DOMAIN + "\0" + guid + "\0" + name.GetOr(""),
                ISSUANCE_DOMAIN + "\0" + guid' + "\0" + name'.GetOr("");
    SplitAtLast(a, OptionalPlatform(platform), b, OptionalPlatform(platform'), '\0');
    var rest, rest' := guid + "\0" + name.GetOr(""), guid' + "\0" + name'.GetOr("");
    assert a == ISSUANCE_DOMAIN + "\0" + rest && b == ISSUANCE_DOMAIN + "\0" + rest';
    SplitAtFirst(ISSUANCE_DOMAIN, rest, ISSUANCE_DOMAIN, rest', '\0');
    SplitAtFirst(guid, name.GetOr(""), guid', name'.GetOr(""), '\0');
  }

  function TransferPayload(guid: Guid, publicId: string, platform: Platform): string {
    guid + "\0" + publicId + "\0" + platform
  }

  lemma TransferPayloadInjective(
      guid: Guid, publicId: string, platform: Platform,
      guid': Guid, publicId': string, platform': Platform)
    requires TransferPayload(guid, publicId, platform) == TransferPayload(guid', publicId', platform')
    ensures guid == guid' && publicId == publicId' && platform == platform'
  {
    SplitAtLast(guid + "\0" + publicId, platform, guid' + "\0" + publicId', platform', '\0');
    SplitAtFirst(guid, publicId, guid', publicId', '\0');
  }
}
