/** The versioned device-feed policy: which access to a personal link is allowed, and
    whether it binds the link to the device that presents it. */
module DevicePolicy {
  import opened Text

  datatype BindingMode = BindingOff | BindingObserve | BindingEnforce
  datatype PolicyMode = Legacy | Observe | Enforce
  datatype BindingState = Grandfathered | Unbound | Bound | Review

  const PLATFORM_HEURISTIC := 1
  const HWID_IDENTITY := 2

  /** A keyed hash of a normalised HWID.  HMAC-SHA256 is treated as injective in key and
      message, which is exactly what a free constructor is. */
  datatype IdentityHash = IdentityHash(key: string, hwid: string)

  /** The x-hwid header after normalisation. */
  datatype HwidHeader = NoHwid | MalformedHwid | Hwid(value: string)

  /** The configured hash keys; a key without its id counts as not configured. */
  datatype IdentityKeys = IdentityKeys(current: Option<string>, previous: Option<string>)

  datatype Identity =
    | IdentityMissing
    | IdentityInvalid(error: string)
    | Identified(current: IdentityHash, previous: Option<IdentityHash>)
  {
    predicate Matches(bound: IdentityHash) {
      Identified? && (current == bound || previous == Some(bound))
    }

    predicate MatchesCurrent(bound: IdentityHash) {
      Identified? && current == bound
    }
  }

  function Identify(header: HwidHeader, keys: IdentityKeys): Identity {
    match header
    case NoHwid => IdentityMissing
    case MalformedHwid => IdentityInvalid("identity_invalid")
    case Hwid(hwid) =>
      if keys.current.None? then IdentityInvalid("identity_hash_unavailable")
      else Identified(
        IdentityHash(keys.current.value, hwid),
        if keys.previous.None? then None else Some(IdentityHash(keys.previous.value, hwid)))
  }

  /** The part of a device row that the policy reads. */
  datatype FeedPolicy = FeedPolicy(
    version: int,
    mode: PolicyMode,
    binding: BindingState,
    boundPlatform: Option<string>,
    boundIdentity: Option<IdentityHash>)

  datatype Context = Context(platform: Option<string>, identity: Identity)

  datatype DecisionName =
    | AllowGlobalOff | AllowLegacy | AllowObserve | AllowSameBinding | AllowUnknownClient
    | AllowIdentityMatch | BindAndAllow | BindIdentityAndAllow | RequireIdentity
    | RequireTransfer | RejectUnsupportedPolicy

  datatype Decision = Decision(
    allowed: bool,
    name: DecisionName,
    reason: Option<string>,
    shouldBind: bool,
    shouldRefresh: bool,
    shouldRecord: bool)

  function Plain(allowed: bool, name: DecisionName): Decision {
    Decision(allowed, name, None, false, false, true)
  }

  function Unavailable(observing: bool, reason: string): Decision {
    if observing then Decision(true, AllowObserve, Some(reason), false, false, true)
    else Decision(false, RequireIdentity, Some(reason), false, false, true)
  }

  function Mismatch(observing: bool, reason: string): Decision {
    if observing then Decision(true, AllowObserve, Some(reason), false, false, true)
    else Decision(false, RequireTransfer, Some(reason), false, false, true)
  }

  function Evaluate(
      global: BindingMode, policy: FeedPolicy, requested: Option<string>, context: Context): Decision
  {
    if global.BindingOff? then Decision(true, AllowGlobalOff, None, false, false, false)
    else if policy.mode.Legacy? then Plain(true, AllowLegacy)
    else
      var observing := global.BindingObserve? || policy.mode.Observe?;
      if policy.version == PLATFORM_HEURISTIC then
        EvaluatePlatform(policy, requested, context.platform, observing)
      else if policy.version == HWID_IDENTITY then
        EvaluateIdentity(policy, requested, context, observing)
      else if observing then
        Plain(true, AllowObserve).(reason := Some("unsupported_feed_policy_version"))
      else
        Plain(false, RejectUnsupportedPolicy).(reason := Some("unsupported_feed_policy_version"))
  }

  predicate IsBound(policy: FeedPolicy) {
    policy.binding.Bound? || policy.binding.Review?
  }

  function EvaluatePlatform(
      policy: FeedPolicy, requested: Option<string>, observed: Option<string>, observing: bool): Decision
  {
    if observed.None? then Plain(true, AllowUnknownClient)
    else if !(IsBound(policy) && policy.boundPlatform.Some?) then
      if requested.Some? && requested != observed then Mismatch(observing, "requested_platform_mismatch")
      else Plain(true, if observing then AllowObserve else BindAndAllow).(shouldBind := true)
    else if policy.boundPlatform != observed then Mismatch(observing, "platform_mismatch")
    else Plain(true, if observing then AllowObserve else AllowSameBinding)
  }

  function EvaluateIdentity(
      policy: FeedPolicy, requested: Option<string>, context: Context, observing: bool): Decision
  {
    match context.identity
    case IdentityMissing => Unavailable(observing, "identity_missing")
    case IdentityInvalid(error) => Unavailable(observing, error)
    case Identified(_, _) =>
      var expected := Coalesce(policy.boundPlatform, requested);
      if policy.boundIdentity.Some? then
        if !context.identity.Matches(policy.boundIdentity.value) then
          Mismatch(observing, "identity_mismatch")
        else if context.platform.Some? && expected.Some? && expected != context.platform then
          Mismatch(observing, "identity_platform_conflict")
        else
          Plain(true, if observing then AllowObserve else AllowIdentityMatch)
          .(shouldRefresh := !context.identity.MatchesCurrent(policy.boundIdentity.value))
      else if context.platform.Some? && requested.Some? && requested != context.platform then
        Mismatch(observing, "requested_platform_mismatch")
      else
        Plain(true, if observing then AllowObserve else BindIdentityAndAllow).(shouldBind := true)
  }

  /** The effect of a binding decision on the row, BindDeviceFeed and RefreshDeviceIdentityHash
      together.  A row that already has an identity keeps it when asked to bind again. */
  function Rebind(
      policy: FeedPolicy, requested: Option<string>, context: Context, decision: Decision): FeedPolicy
  {
    if decision.shouldBind then
      if policy.version == PLATFORM_HEURISTIC then
        if context.platform.None? then policy
        else policy.(binding := Bound, boundPlatform := context.platform)
      else if policy.boundIdentity.None? && context.identity.Identified? then
        policy.(
          binding := Bound,
          boundPlatform := Coalesce(context.platform, Coalesce(requested, policy.boundPlatform)),
          boundIdentity := Some(context.identity.current))
      else policy
    else if decision.shouldRefresh && context.identity.Identified? then
      policy.(boundIdentity := Some(context.identity.current))
    else policy
  }

  /** Identities always come from one HWID, so a match under either key is a match of HWIDs. */
  lemma MatchMeansSameHwid(header: HwidHeader, keys: IdentityKeys, bound: IdentityHash)
    requires Identify(header, keys).Matches(bound)
    ensures header == Hwid(bound.hwid)
  {
  }

  /** Whatever the modes, an access never moves a bound row to another HWID, and a row that
      becomes bound is bound to the HWID of the access that bound it. */
  lemma RebindKeepsOwner(
      global: BindingMode, policy: FeedPolicy, requested: Option<string>,
      platform: Option<string>, header: HwidHeader, keys: IdentityKeys)
    ensures
      var context := Context(platform, Identify(header, keys));
      var after := Rebind(policy, requested, context, Evaluate(global, policy, requested, context));
      && (policy.boundIdentity.Some? ==>
            after.boundIdentity.Some? && after.boundIdentity.value.hwid == policy.boundIdentity.value.hwid)
      && (policy.boundIdentity.None? && after.boundIdentity.Some? ==>
            header == Hwid(after.boundIdentity.value.hwid))
      && after.version == policy.version && after.mode == policy.mode
  {
    var context := Context(platform, Identify(header, keys));
    var decision := Evaluate(global, policy, requested, context);
    if decision.shouldRefresh && policy.boundIdentity.Some? {
      MatchMeansSameHwid(header, keys, policy.boundIdentity.value);
    }
  }

  /** Under full enforcement a version-2 row that is bound admits exactly the accesses that
      come from its HWID under a configured key and do not contradict its platform. */
  lemma EnforcedAccess(
      policy: FeedPolicy, requested: Option<string>,
      platform: Option<string>, header: HwidHeader, keys: IdentityKeys)
    requires policy.version == HWID_IDENTITY && policy.mode.Enforce?
    requires policy.boundIdentity.Some?
    ensures
      var bound := policy.boundIdentity.value;
      var expected := Coalesce(policy.boundPlatform, requested);
      Evaluate(BindingEnforce, policy, requested, Context(platform, Identify(header, keys))).allowed
      <==> && header == Hwid(bound.hwid)
           && keys.current.Some?
           && (keys.current == Some(bound.key) || keys.previous == Some(bound.key))
           && (platform.None? || expected.None? || platform == expected)
  {
  }

  /** Only enforcement refuses: with either mode relaxed every access is allowed. */
  lemma OnlyEnforcementRefuses(
      global: BindingMode, policy: FeedPolicy, requested: Option<string>, context: Context)
    requires !Evaluate(global, policy, requested, context).allowed
    ensures global.BindingEnforce? && policy.mode.Enforce?
  {
  }
}
