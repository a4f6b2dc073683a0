/** The commerce policy: switches changed by compare-and-set on the policy version, after a
    preview that an administrator confirms. */
module CommercePolicy {
  import opened Text
  import opened Canonical

  const SWITCHES: set<string> := {
    "new_purchases", "trials", "renewals", "resumes", "device_upgrades", "extend_and_upgrade",
    "referrals", "campaign_tracking", "capacity_enforcement"}

  const FIRST_SWITCHES: set<string> := {"renewals", "campaign_tracking"}

  /** The enabled switches, and when a temporary override of the policy ends. */
  datatype Policy = Policy(version: nat, enabled: set<string>, reason: string, expiresAt: Option<Time>)

  datatype RequestState = Pending | Cancelled | Outdated | Lapsed | Confirmed

  datatype Request = Request(
    admin: int, name: string, enable: bool, expectedVersion: nat, reason: string, state: RequestState,
    expiresAt: Time)

  /** A confirmation token is the position of its request: tokens are random and stored hashed
      under a unique index. */
  datatype Store = Store(policy: Option<Policy>, requests: seq<Request>)

  const FIRST_POLICY := Policy(1, FIRST_SWITCHES, "pre_advertising_freeze", None)

  /** Reading the policy creates it, and releases an override that has ended. */
  function Current(policy: Option<Policy>, now: Time): Policy {
    var p := if policy.Some? then policy.value else FIRST_POLICY;
    if p.expiresAt.Some? && p.expiresAt.value <= now then
      p.(version := p.version + 1, reason := "expired_override_released", expiresAt := None)
    else p
  }

  function Flip(p: Policy, name: string, enable: bool, reason: string): Policy {
    p.(version := p.version + 1, reason := reason,
       enabled := if enable then p.enabled + {name} else p.enabled - {name})
  }

  datatype Result = Ok | Error(code: string)

  function Get(s: Store, now: Time): Store {
    s.(policy := Some(Current(s.policy, now)))
  }

  function SetSwitch(
      s: Store, name: string, enable: bool, reason: string, expected: Option<nat>, now: Time): (Store, Result)
  {
    if name !in SWITCHES then (s, Error("unknown_commerce_switch"))
    else
      var p := Current(s.policy, now);
      if expected.Some? && expected.value != p.version then
        (s.(policy := Some(p)), Error("commerce_policy_version_conflict"))
      else (s.(policy := Some(Flip(p, name, enable, reason))), Ok)
  }

  function Supersede(requests: seq<Request>, admin: int, name: string): (r: seq<Request>)
    ensures |r| == |requests|
    ensures forall i :: 0 <= i < |requests| ==>
      r[i] == if requests[i].admin == admin && requests[i].name == name && requests[i].state.Pending?
              then requests[i].(state := Cancelled) else requests[i]
  {
    seq(|requests|, i requires 0 <= i < |requests| =>
      if requests[i].admin == admin && requests[i].name == name && requests[i].state.Pending?
      then requests[i].(state := Cancelled) else requests[i])
  }

  const MIN_TTL := 30

  function Prepare(
      s: Store, admin: int, name: string, enable: bool, reason: string, ttl: int, now: Time): (Store, Result)
  {
    if name !in SWITCHES then (s, Error("unknown_commerce_switch"))
    else
      var p := Current(s.policy, now);
      var expiresAt := now + if ttl < MIN_TTL then MIN_TTL else ttl;
      var request := Request(admin, name, enable, p.version, reason, Pending, expiresAt);
      (Store(Some(p), Supersede(s.requests, admin, name) + [request]), Ok)
  }

  function SetState(requests: seq<Request>, i: nat, state: RequestState): seq<Request>
    requires i < |requests|
  {
    requests[i := requests[i].(state := state)]
  }

  /** The failures of a confirmation are committed with it. */
  function Confirm(s: Store, token: nat, admin: int, now: Time): (Store, Result) {
    if token >= |s.requests| || s.requests[token].admin != admin then (s, Error("commerce_confirmation_invalid"))
    else
      var r := s.requests[token];
      if !r.state.Pending? then (s, Error("commerce_confirmation_already_used"))
      else if r.expiresAt <= now then
        (s.(requests := SetState(s.requests, token, Lapsed)), Error("commerce_confirmation_expired"))
      else
        var (t, result) := SetSwitch(s, r.name, r.enable, r.reason, Some(r.expectedVersion), now);
        (t.(requests := SetState(s.requests, token, if result.Ok? then Confirmed else Outdated)), result)
  }

  class CommercePolicyRepository {
    var policy: Option<Policy>
    var requests: seq<Request>

    ghost function State(): Store
      reads this
    {
      Store(policy, requests)
    }

    ghost predicate Valid()
      reads this
    {
      Inv(State())
    }

    method GetPolicy(now: Time) returns (p: Policy)
      requires Valid()
      modifies this`policy
      ensures State() == Get(old(State()), now) && policy == Some(p)
      ensures Valid() && Advances(old(State()), State())
    {
      GetKeeps(State(), now);
      if policy.None? {
        policy := Some(FIRST_POLICY);
      }
      p := policy.value;
      if p.expiresAt.Some? && p.expiresAt.value <= now {
        p := p.(expiresAt := None, reason := "expired_override_released", version := p.version + 1);
        policy := Some(p);
      }
    }

    method SetPolicySwitch(name: string, enable: bool, reason: string, expected: Option<nat>, now: Time)
      returns (result: Result)
      requires Valid()
      modifies this`policy
      ensures (State(), result) == SetSwitch(old(State()), name, enable, reason, expected, now)
      ensures Valid() && Advances(old(State()), State())
    {
      ChangeKeeps(State(), name, enable, reason, expected, now);
      if name !in SWITCHES {
        return Error("unknown_commerce_switch");
      }
      var p := GetPolicy(now);
      var version := if expected.None? then p.version else expected.value;
      if policy.value.version != version {
        return Error("commerce_policy_version_conflict");
      }
      policy := Some(Policy(version + 1, if enable then p.enabled + {name} else p.enabled - {name}, reason,
                            p.expiresAt));
      return Ok;
    }

    method PrepareSwitchChange(admin: int, name: string, enable: bool, reason: string, ttl: int, now: Time)
      returns (result: Result, token: nat)
      requires Valid()
      modifies this
      ensures (State(), result) == Prepare(old(State()), admin, name, enable, reason, ttl, now)
      ensures result.Ok? ==> token == |requests| - 1
      ensures Valid() && Advances(old(State()), State())
    {
      PrepareKeeps(State(), admin, name, enable, reason, ttl, now);
      if name !in SWITCHES {
        return Error("unknown_commerce_switch"), 0;
      }
      var p := GetPolicy(now);
      requests := Supersede(requests, admin, name);
      var expiresAt := now + if ttl < MIN_TTL then MIN_TTL else ttl;
      token := |requests|;
      requests := requests + [Request(admin, name, enable, p.version, reason, Pending, expiresAt)];
      return Ok, token;
    }

    method ConfirmSwitchChange(token: nat, admin: int, now: Time) returns (result: Result)
      requires Valid()
      modifies this
      ensures (State(), result) == Confirm(old(State()), token, admin, now)
      ensures Valid() && Advances(old(State()), State())
    {
      ConfirmKeeps(State(), token, admin, now);
      if token >= |requests| || requests[token].admin != admin {
        return Error("commerce_confirmation_invalid");
      }
      var request := requests[token];
      if !request.state.Pending? {
        return Error("commerce_confirmation_already_used");
      }
      if request.expiresAt <= now {
        requests := SetState(requests, token, Lapsed);
        return Error("commerce_confirmation_expired");
      }
      result := SetPolicySwitch(request.name, request.enable, request.reason, Some(request.expectedVersion), now);
      requests := SetState(requests, token, if result.Ok? then Confirmed else Outdated);
    }
  }

  /* ---------- runs ---------- */

  datatype Event =
    | Read(now: Time)
    | Change(name: string, enable: bool, reason: string, expected: Option<nat>, now: Time)
    | Preview(admin: int, name: string, enable: bool, reason: string, ttl: int, now: Time)
    | Confirmation(token: nat, admin: int, now: Time)

  function Step(s: Store, e: Event): Store {
    match e
    case Read(now) => Get(s, now)
    case Change(name, enable, reason, expected, now) => SetSwitch(s, name, enable, reason, expected, now).0
    case Preview(admin, name, enable, reason, ttl, now) => Prepare(s, admin, name, enable, reason, ttl, now).0
    case Confirmation(token, admin, now) => Confirm(s, token, admin, now).0
  }

  function Run(s: Store, events: seq<Event>): Store
    decreases |events|
  {
    if |events| == 0 then s else Run(Step(s, events[0]), events[1..])
  }

  function Version(s: Store): nat {
    if s.policy.Some? then s.policy.value.version else 0
  }

  /** A policy changes only together with its version. */
  predicate PolicyAdvances(s: Store, t: Store) {
    t.policy == s.policy || (t.policy.Some? && Version(s) < Version(t))
  }

  /** A request settles once. */
  predicate RequestAdvances(a: Request, b: Request) {
    b == a.(state := b.state) && (!a.state.Pending? ==> b.state == a.state)
  }

  predicate Advances(s: Store, t: Store) {
    PolicyAdvances(s, t) && |s.requests| <= |t.requests|
    && forall i :: 0 <= i < |s.requests| ==> RequestAdvances(s.requests[i], t.requests[i])
  }

  predicate SettledOnce(requests: seq<Request>, version: nat) {
    (forall i :: 0 <= i < |requests| && requests[i].state.Confirmed? ==> requests[i].expectedVersion < version)
    && forall i, j :: 0 <= i < j < |requests| && requests[i].state.Confirmed? && requests[j].state.Confirmed? ==>
         requests[i].expectedVersion != requests[j].expectedVersion
  }

  predicate OnePending(requests: seq<Request>) {
    forall i, j :: 0 <= i < j < |requests| && requests[i].state.Pending? && requests[j].state.Pending? ==>
      (requests[i].admin, requests[i].name) != (requests[j].admin, requests[j].name)
  }

  predicate Inv(s: Store) {
    SettledOnce(s.requests, Version(s)) && OnePending(s.requests)
  }

  lemma PrepareKeeps(s: Store, admin: int, name: string, enable: bool, reason: string, ttl: int, now: Time)
    requires Inv(s)
    ensures
      var t := Prepare(s, admin, name, enable, reason, ttl, now).0;
      Inv(t) && Advances(s, t)
  {
  }

  /** Settling a pending request: a confirmation moves the version past the one it expected. */
  lemma SettleKeeps(requests: seq<Request>, i: nat, state: RequestState, version: nat, newer: nat)
    requires SettledOnce(requests, version) && OnePending(requests) && version <= newer
    requires i < |requests| && requests[i].state.Pending? && !state.Pending?
    requires state.Confirmed? ==> requests[i].expectedVersion == version < newer
    ensures SettledOnce(SetState(requests, i, state), newer) && OnePending(SetState(requests, i, state))
  {
  }

  lemma ConfirmKeeps(s: Store, token: nat, admin: int, now: Time)
    requires Inv(s)
    ensures
      var t := Confirm(s, token, admin, now).0;
      Inv(t) && Advances(s, t)
  {
    var t := Confirm(s, token, admin, now).0;
    if token < |s.requests| && s.requests[token].admin == admin && s.requests[token].state.Pending? {
      var version := if t.requests[token].state.Confirmed? then s.requests[token].expectedVersion else Version(s);
      SettleKeeps(s.requests, token, t.requests[token].state, version, Version(t));
    }
  }

  lemma GetKeeps(s: Store, now: Time)
    requires Inv(s)
    ensures Inv(Get(s, now)) && Advances(s, Get(s, now))
  {
  }

  lemma ChangeKeeps(s: Store, name: string, enable: bool, reason: string, expected: Option<nat>, now: Time)
    requires Inv(s)
    ensures
      var t := SetSwitch(s, name, enable, reason, expected, now).0;
      Inv(t) && Advances(s, t)
  {
  }

  lemma StepKeeps(s: Store, e: Event)
    requires Inv(s)
    ensures Inv(Step(s, e)) && Advances(s, Step(s, e))
  {
    match e
    case Read(now) => GetKeeps(s, now);
    case Change(name, enable, reason, expected, now) => ChangeKeeps(s, name, enable, reason, expected, now);
    case Preview(admin, name, enable, reason, ttl, now) => PrepareKeeps(s, admin, name, enable, reason, ttl, now);
    case Confirmation(token, admin, now) => ConfirmKeeps(s, token, admin, now);
  }

  lemma AdvancesTransitive(s: Store, t: Store, u: Store)
    requires Advances(s, t) && Advances(t, u)
    ensures Advances(s, u)
  {
    forall i | 0 <= i < |s.requests| ensures RequestAdvances(s.requests[i], u.requests[i]) {
      assert RequestAdvances(s.requests[i], t.requests[i]) && RequestAdvances(t.requests[i], u.requests[i]);
    }
  }

  /** Over any run: no two confirmed requests expected the same version, every administrator has
      at most one pending request per switch, and nothing settled changes again. */
  lemma {:induction false} RunKeeps(s: Store, events: seq<Event>)
    requires Inv(s)
    ensures Inv(Run(s, events)) && Advances(s, Run(s, events))
    decreases |events|
  {
    if |events| > 0 {
      StepKeeps(s, events[0]);
      RunKeeps(Step(s, events[0]), events[1..]);
      AdvancesTransitive(s, Step(s, events[0]), Run(s, events));
    }
  }

  /** The next policy: one switch is set, the others, and the end of an override, are kept. */
  ghost predicate Switched(p: Policy, q: Policy, name: string, enable: bool, reason: string) {
    && q.version == p.version + 1 && q.reason == reason && q.expiresAt == p.expiresAt
    && (name in q.enabled <==> enable)
    && forall other :: other != name ==> (other in q.enabled <==> other in p.enabled)
  }

  /** The policy in force: the first one before any, and one whose override has ended without it. */
  lemma CurrentExactly(policy: Option<Policy>, now: Time)
    ensures
      var p, q := if policy.Some? then policy.value else FIRST_POLICY, Current(policy, now);
      if p.expiresAt.Some? && p.expiresAt.value <= now then
        q.version == p.version + 1 && q.enabled == p.enabled && q.expiresAt.None?
        && q.reason == "expired_override_released"
      else q == p
    ensures policy.None? ==> Current(policy, now).version == 1
                             && Current(policy, now).enabled == {"renewals", "campaign_tracking"}
  {
  }

  /** A switch is set if and only if it exists and no other version was expected, and to what it was
      asked to be. */
  lemma SetExactly(s: Store, name: string, enable: bool, reason: string, expected: Option<nat>, now: Time)
    ensures
      var (t, result) := SetSwitch(s, name, enable, reason, expected, now);
      var p := Current(s.policy, now);
      && (result.Ok? <==> name in SWITCHES && (expected.Some? ==> expected.value == p.version))
      && t.requests == s.requests
      && (result.Ok? ==> t.policy.Some? && Switched(p, t.policy.value, name, enable, reason))
      && (result.Error? ==> t.policy == s.policy || t.policy == Some(p))
      && (result == Error("unknown_commerce_switch") ==> name !in SWITCHES && t == s)
  {
    assert "unknown_commerce_switch"[0] == 'u' && "commerce_policy_version_conflict"[0] == 'c';
  }

  /** A preview names the version in force, lasts at least half a minute and replaces those of the same
      administrator for the same switch. */
  lemma PreparedExactly(s: Store, admin: int, name: string, enable: bool, reason: string, ttl: int, now: Time)
    ensures
      var (t, result) := Prepare(s, admin, name, enable, reason, ttl, now);
      && (result.Ok? <==> name in SWITCHES)
      && (result.Error? ==> t == s)
      && (result.Ok? ==>
            && t.policy == Some(Current(s.policy, now)) && |t.requests| == |s.requests| + 1
            && t.requests[|s.requests|] == Request(admin, name, enable, Current(s.policy, now).version, reason, Pending,
                                                   t.requests[|s.requests|].expiresAt)
            && t.requests[|s.requests|].expiresAt >= now + 30 && t.requests[|s.requests|].expiresAt >= now + ttl
            && (t.requests[|s.requests|].expiresAt == now + 30 || t.requests[|s.requests|].expiresAt == now + ttl)
            && forall i :: 0 <= i < |s.requests| ==>
                 var r := s.requests[i];
                 t.requests[i]
                 == if r.admin == admin && r.name == name && r.state.Pending? then r.(state := Cancelled) else r)
  {
  }

  /** What a confirmation that is refused settles, and why. */
  lemma ConfirmRefusals(s: Store, token: nat, admin: int, now: Time)
    ensures
      var (t, result) := Confirm(s, token, admin, now);
      && (token >= |s.requests| || s.requests[token].admin != admin ==>
            t == s && result == Error("commerce_confirmation_invalid"))
      && (token < |s.requests| && s.requests[token].admin == admin ==>
            var r := s.requests[token];
            && (!r.state.Pending? ==> t == s && result == Error("commerce_confirmation_already_used"))
            && (r.state.Pending? && r.expiresAt <= now ==>
                  result == Error("commerce_confirmation_expired") && t.policy == s.policy
                  && t.requests == s.requests[token := r.(state := Lapsed)])
            && (r.state.Pending? && now < r.expiresAt ==>
                  && (result.Ok? <==> r.name in SWITCHES && r.expectedVersion == Current(s.policy, now).version)
                  && t.requests == s.requests[token := r.(state := if result.Ok? then Confirmed else Outdated)]
                  && (result.Ok? ==> t.policy.Some?
                                     && Switched(Current(s.policy, now), t.policy.value, r.name, r.enable, r.reason))))
  {
  }

  /** Compare-and-set, exactly: after any run since its preview, a change is confirmed if and only if
      its own administrator confirms it, it is still pending and unexpired, and the policy is the very
      one that was previewed, with no override to release.  It is then applied to that policy. */
  lemma ConfirmedMeansUntouched(
      s: Store, admin: int, name: string, enable: bool, reason: string, ttl: int, now: Time,
      events: seq<Event>, confirmer: int, later: Time)
    requires Inv(s) && Prepare(s, admin, name, enable, reason, ttl, now).1.Ok?
    ensures
      var previewed := Prepare(s, admin, name, enable, reason, ttl, now).0;
      var token := |s.requests|;
      var before := Run(previewed, events);
      var (after, result) := Confirm(before, token, confirmer, later);
      && token < |before.requests|
      && (result.Ok?
          <==> && confirmer == admin
               && before.requests[token].state.Pending?
               && later < now + (if ttl < MIN_TTL then MIN_TTL else ttl)
               && previewed.policy == Some(Current(before.policy, later)))
      && (result.Ok? ==> before.policy == previewed.policy
                         && after.policy.Some?
                         && Switched(previewed.policy.value, after.policy.value, name, enable, reason)
                         && after.requests == before.requests[token := before.requests[token].(state := Confirmed)])
  {
    var previewed := Prepare(s, admin, name, enable, reason, ttl, now).0;
    StepKeeps(s, Preview(admin, name, enable, reason, ttl, now));
    RunKeeps(previewed, events);
    var before := Run(previewed, events);
    assert RequestAdvances(previewed.requests[|s.requests|], before.requests[|s.requests|]);
  }

  /** ... and it takes effect at most once. */
  lemma ConfirmedOnce(s: Store, token: nat, admin: int, now: Time, events: seq<Event>, confirmer: int, later: Time)
    requires Inv(s) && Confirm(s, token, admin, now).1.Ok?
    ensures
      var t := Run(Confirm(s, token, admin, now).0, events);
      Confirm(t, token, confirmer, later).0 == t && Confirm(t, token, confirmer, later).1.Error?
  {
    var first := Confirm(s, token, admin, now).0;
    StepKeeps(s, Confirmation(token, admin, now));
    RunKeeps(first, events);
    assert RequestAdvances(first.requests[token], Run(first, events).requests[token]);
  }

  /** From any policy, with or without an override in force, and no requests. */
  lemma ReachableSettlesOnce(policy: Option<Policy>, events: seq<Event>)
    ensures Inv(Run(Store(policy, []), events))
  {
    RunKeeps(Store(policy, []), events);
  }
}
