/** Capacity monitoring with hysteresis: the recorded state recovers only after it has dwelt long
    enough and utilisation has fallen far enough. */
module Capacity {
  import opened Text
  import opened Canonical

  datatype Health = Healthy | Constrained | Saturated | Unknown

  datatype Settings = Settings(
    saturatedRatio: real,
    constrainedRatio: real,
    recoveryRatio: real,
    minDwell: int,
    backlogSlo: int,
    notificationLimit: int,
    refundLimit: int,
    staleWorkerLimit: int)

  /** What one capture counts.  A capacity of zero is not configured. */
  datatype Reading = Reading(
    activeSubscriptions: nat,
    activeDevices: Option<nat>,
    subscriptionCapacity: nat,
    deviceCapacity: nat,
    paymentOldest: Option<int>,
    activationOldest: Option<int>,
    notificationBacklog: nat,
    refundManualReview: nat,
    staleWorkers: nat)

  datatype Transition = Transition(
    previous: Option<Health>, next: Health, reason: string, utilization: Option<real>, at: Time)

  datatype Snapshot = Snapshot(state: Health, reason: string, utilization: Option<real>, at: Time)

  function Larger(x: real, y: real): real {
    if x < y then y else x
  }

  /** The highest configured ratio. */
  function Utilization(r: Reading): Option<real> {
    var bySubscriptions := if r.subscriptionCapacity == 0 then None
                           else Some(r.activeSubscriptions as real / r.subscriptionCapacity as real);
    var byDevices := if r.deviceCapacity == 0 || r.activeDevices.None? then None
                     else Some(r.activeDevices.value as real / r.deviceCapacity as real);
    if bySubscriptions.None? then byDevices
    else if byDevices.None? then bySubscriptions
    else Some(Larger(bySubscriptions.value, byDevices.value))
  }

  predicate Exceeds(age: Option<int>, slo: int) {
    age.Some? && age.value >= slo
  }

  /** The reading by itself, most urgent reason first. */
  function Assess(s: Settings, r: Reading): (Health, string) {
    var u := Utilization(r);
    if r.staleWorkers >= s.staleWorkerLimit then (Saturated, "critical_worker_stale")
    else if r.refundManualReview >= s.refundLimit then (Saturated, "refund_manual_review_limit_exceeded")
    else if r.notificationBacklog >= s.notificationLimit then (Saturated, "notification_backlog_limit_exceeded")
    else if Exceeds(r.activationOldest, s.backlogSlo) then (Saturated, "activation_backlog_slo_exceeded")
    else if Exceeds(r.paymentOldest, s.backlogSlo) then (Saturated, "payment_backlog_slo_exceeded")
    else if u.None? then (Unknown, "capacity_not_configured")
    else if u.value >= s.saturatedRatio then (Saturated, "capacity_high_watermark")
    else if u.value >= s.constrainedRatio then (Constrained, "capacity_constrained")
    else (Healthy, "within_capacity")
  }

  predicate Strained(h: Health) {
    h.Constrained? || h.Saturated?
  }

  predicate Recovered(s: Settings, r: Reading, since: Time, now: Time) {
    now - since >= s.minDwell && Utilization(r).Some? && Utilization(r).value < s.recoveryRatio
  }

  /** The reading in the light of the last record. */
  function Judge(s: Settings, r: Reading, latest: Option<Transition>, now: Time): (Health, string) {
    var (state, reason) := Assess(s, r);
    if state.Healthy? && latest.Some? && Strained(latest.value.next) && !Recovered(s, r, latest.value.at, now)
    then (latest.value.next, "capacity_hysteresis_hold")
    else (state, reason)
  }

  /** A record that ORDER BY captured_at DESC LIMIT 1 may return: none is later. */
  predicate IsLatest(ts: seq<Transition>, k: nat) {
    k < |ts| && forall j :: 0 <= j < |ts| ==> ts[j].at <= ts[k].at
  }

  /** The record that is read: among several of the latest time, any one. */
  function Latest(ts: seq<Transition>, pick: nat): Option<Transition> {
    if |ts| == 0 then None else if IsLatest(ts, pick) then Some(ts[pick]) else Some(ts[|ts| - 1])
  }

  function Record(s: Settings, ts: seq<Transition>, r: Reading, now: Time, pick: nat): seq<Transition> {
    var latest := Latest(ts, pick);
    var (state, reason) := Judge(s, r, latest, now);
    if latest.Some? && latest.value.next == state then ts
    else ts + [Transition(if latest.None? then None else Some(latest.value.next), state, reason, Utilization(r), now)]
  }

  class CapacityService {
    const settings: Settings
    var transitions: seq<Transition>

    constructor (settings: Settings)
      ensures this.settings == settings && transitions == []
    {
      this.settings := settings;
      transitions := [];
    }

    /** The reading by itself; each later limit overrides what came before it. */
    method AssessReading(r: Reading) returns (state: Health, reason: string)
      ensures (state, reason) == Assess(settings, r)
    {
      state, reason := Healthy, "within_capacity";
      var utilization := Utilization(r);
      if utilization.None? {
        state, reason := Unknown, "capacity_not_configured";
      } else if utilization.value >= settings.saturatedRatio {
        state, reason := Saturated, "capacity_high_watermark";
      } else if utilization.value >= settings.constrainedRatio {
        state, reason := Constrained, "capacity_constrained";
      }
      if r.paymentOldest.Some? && r.paymentOldest.value >= settings.backlogSlo {
        state, reason := Saturated, "payment_backlog_slo_exceeded";
      }
      if r.activationOldest.Some? && r.activationOldest.value >= settings.backlogSlo {
        state, reason := Saturated, "activation_backlog_slo_exceeded";
      }
      if r.notificationBacklog >= settings.notificationLimit {
        state, reason := Saturated, "notification_backlog_limit_exceeded";
      }
      if r.refundManualReview >= settings.refundLimit {
        state, reason := Saturated, "refund_manual_review_limit_exceeded";
      }
      if r.staleWorkers >= settings.staleWorkerLimit {
        state, reason := Saturated, "critical_worker_stale";
      }
    }

    method Capture(r: Reading, now: Time, pick: nat) returns (snapshot: Snapshot)
      modifies this`transitions
      ensures transitions == Record(settings, old(transitions), r, now, pick)
      ensures (snapshot.state, snapshot.reason) == Judge(settings, r, Latest(old(transitions), pick), now)
      ensures snapshot.utilization == Utilization(r) && snapshot.at == now
    {
      var utilization := Utilization(r);
      var state, reason := AssessReading(r);
      var latest := Latest(transitions, pick);
      if state.Healthy? && latest.Some? && (latest.value.next.Constrained? || latest.value.next.Saturated?) {
        var elapsed := now - latest.value.at;
        var belowRecovery := utilization.Some? && utilization.value < settings.recoveryRatio;
        if elapsed < settings.minDwell || !belowRecovery {
          state, reason := latest.value.next, "capacity_hysteresis_hold";
        }
      }
      snapshot := Snapshot(state, reason, utilization, now);
      if latest.None? || latest.value.next != state {
        var previous := if latest.None? then None else Some(latest.value.next);
        transitions := transitions + [Transition(previous, state, reason, utilization, now)];
      }
    }
  }

  /* ---------- one reading ---------- */

  /** Some limit other than a ratio is exceeded. */
  predicate Overloaded(s: Settings, r: Reading) {
    r.staleWorkers >= s.staleWorkerLimit || r.refundManualReview >= s.refundLimit
    || r.notificationBacklog >= s.notificationLimit
    || (r.activationOldest.Some? && r.activationOldest.value >= s.backlogSlo)
    || (r.paymentOldest.Some? && r.paymentOldest.value >= s.backlogSlo)
  }

  /** The ratio of a configured capacity is x. */
  predicate IsRatio(r: Reading, x: real) {
    || (r.subscriptionCapacity > 0 && x == r.activeSubscriptions as real / r.subscriptionCapacity as real)
    || (r.deviceCapacity > 0 && r.activeDevices.Some? && x == r.activeDevices.value as real / r.deviceCapacity as real)
  }

  /** Utilisation is the highest ratio there is. */
  lemma UtilizationExactly(r: Reading)
    ensures
      var u := Utilization(r);
      && (u.Some? <==> exists x :: IsRatio(r, x))
      && (u.Some? ==> IsRatio(r, u.value) && forall x :: IsRatio(r, x) ==> x <= u.value)
  {
    if r.subscriptionCapacity > 0 {
      assert IsRatio(r, r.activeSubscriptions as real / r.subscriptionCapacity as real);
    }
    if r.deviceCapacity > 0 && r.activeDevices.Some? {
      assert IsRatio(r, r.activeDevices.value as real / r.deviceCapacity as real);
    }
  }

  /** What a reading says by itself. */
  lemma AssessedExactly(s: Settings, r: Reading)
    ensures
      var state, u := Assess(s, r).0, Utilization(r);
      && (state.Unknown? <==> !Overloaded(s, r) && u.None?)
      && (state.Saturated? <==> Overloaded(s, r) || (u.Some? && u.value >= s.saturatedRatio))
      && (state.Constrained? <==>
            !Overloaded(s, r) && u.Some? && s.constrainedRatio <= u.value < s.saturatedRatio)
      && (state.Healthy? <==>
            !Overloaded(s, r) && u.Some? && u.value < s.saturatedRatio && u.value < s.constrainedRatio)
  {
  }

  /** Strain is left for health if and only if the reading is healthy, the dwell has passed and
      utilisation is under the recovery ratio; it is then recorded.  A healthy reading that does not
      recover changes nothing. */
  lemma RecoversExactly(s: Settings, ts: seq<Transition>, r: Reading, now: Time, pick: nat)
    requires IsLatest(ts, pick) && Strained(ts[pick].next)
    ensures
      var u := Record(s, ts, r, now, pick);
      var healthy := Assess(s, r).0.Healthy?;
      && (|u| == |ts| + 1 && u[|ts|].next.Healthy?
          <==> && healthy && now - ts[pick].at >= s.minDwell
               && Utilization(r).Some? && Utilization(r).value < s.recoveryRatio)
      && (healthy && !(now - ts[pick].at >= s.minDwell && Utilization(r).value < s.recoveryRatio) ==>
            u == ts && Judge(s, r, Some(ts[pick]), now) == (ts[pick].next, "capacity_hysteresis_hold"))
      && (!healthy ==>
            if Assess(s, r).0 == ts[pick].next then u == ts
            else u == ts + [Transition(Some(ts[pick].next), Assess(s, r).0, Assess(s, r).1, Utilization(r), now)])
  {
  }

  /** From any other state, and at first, the reading is recorded as it is, if it is a change. */
  lemma RecordedExactly(s: Settings, ts: seq<Transition>, r: Reading, now: Time, pick: nat)
    requires ts == [] || (IsLatest(ts, pick) && !Strained(ts[pick].next))
    ensures
      var u := Record(s, ts, r, now, pick);
      var previous := if ts == [] then None else Some(ts[pick].next);
      if previous == Some(Assess(s, r).0) then u == ts
      else u == ts + [Transition(previous, Assess(s, r).0, Assess(s, r).1, Utilization(r), now)]
  {
  }

  /* ---------- runs ---------- */

  datatype Captured = Captured(reading: Reading, at: Time)

  /** A run of captures, with what the database picked for each among several latest records. */
  function Run(s: Settings, ts: seq<Transition>, captures: seq<Captured>, picks: seq<nat>): seq<Transition>
    requires |picks| == |captures|
    decreases |captures|
  {
    if |captures| == 0 then ts
    else Run(s, Record(s, ts, captures[0].reading, captures[0].at, picks[0]), captures[1..], picks[1..])
  }

  /** Captures that do not go back in time, from the last record on. */
  predicate InOrder(ts: seq<Transition>, captures: seq<Captured>) {
    (forall i :: 0 <= i < |captures| && |ts| > 0 ==> ts[|ts| - 1].at <= captures[i].at)
    && (forall i, j :: 0 <= i < j < |captures| ==> captures[i].at <= captures[j].at)
  }

  /** Neighbouring records differ, chain by previous state, and a recovery from strain has waited
      the minimum dwell with utilisation under the recovery ratio. */
  predicate Follows(s: Settings, a: Transition, b: Transition) {
    b.previous == Some(a.next) && b.next != a.next && a.at <= b.at
    && (Strained(a.next) && b.next.Healthy? ==>
          b.at - a.at >= s.minDwell && b.utilization.Some? && b.utilization.value < s.recoveryRatio)
  }

  predicate Chain(s: Settings, ts: seq<Transition>) {
    (|ts| > 0 ==> ts[0].previous.None?)
    && forall i :: 0 < i < |ts| ==> Follows(s, ts[i - 1], ts[i])
  }

  /** Record k may be read and is not in the state recorded last, and the reading judged against it is
      a change. */
  predicate Ambiguous(s: Settings, ts: seq<Transition>, r: Reading, now: Time, k: nat) {
    IsLatest(ts, k) && ts[k].next != ts[|ts| - 1].next && Judge(s, r, Some(ts[k]), now).0 != ts[k].next
  }

  /** Several records have the latest time, and one of them that disagrees with the last would be
      answered with a new record. */
  predicate AmbiguousTie(s: Settings, ts: seq<Transition>, r: Reading, now: Time) {
    exists k: nat :: k < |ts| && Ambiguous(s, ts, r, now, k)
  }

  lemma LastIsLatest(s: Settings, ts: seq<Transition>)
    requires Chain(s, ts) && |ts| > 0
    ensures IsLatest(ts, |ts| - 1)
  {
    forall j | 0 <= j < |ts| ensures ts[j].at <= ts[|ts| - 1].at {
      TimesIncrease(s, ts, j, |ts| - 1);
    }
  }

  /** With the record that is read given, a capture keeps the chain unless that record is ambiguous. */
  lemma PickChains(s: Settings, ts: seq<Transition>, r: Reading, now: Time, pick: nat)
    requires Chain(s, ts) && (|ts| > 0 ==> ts[|ts| - 1].at <= now)
    ensures Chain(s, Record(s, ts, r, now, pick)) <==> !(pick < |ts| && Ambiguous(s, ts, r, now, pick))
  {
    var u := Record(s, ts, r, now, pick);
    if |ts| > 0 {
      LastIsLatest(s, ts);
      assert Latest(ts, pick).value.at == ts[|ts| - 1].at;
      if |u| > |ts| {
        assert u[|ts| - 1] == ts[|ts| - 1];
        assert Follows(s, u[|ts| - 1], u[|ts|]) <==> Latest(ts, pick).value.next == ts[|ts| - 1].next;
      }
    }
    forall i | 0 < i < |ts| ensures Follows(s, u[i - 1], u[i]) {
      assert Follows(s, ts[i - 1], ts[i]);
    }
  }

  /** One capture keeps the chain, whatever record is read, exactly when there is no ambiguous tie. */
  lemma RecordChains(s: Settings, ts: seq<Transition>, r: Reading, now: Time)
    requires Chain(s, ts) && (|ts| > 0 ==> ts[|ts| - 1].at <= now)
    ensures (forall pick: nat :: Chain(s, Record(s, ts, r, now, pick))) <==> !AmbiguousTie(s, ts, r, now)
  {
    forall pick: nat
      ensures Chain(s, Record(s, ts, r, now, pick)) <==> !(pick < |ts| && Ambiguous(s, ts, r, now, pick))
    {
      PickChains(s, ts, r, now, pick);
    }
    if AmbiguousTie(s, ts, r, now) {
      var k: nat :| k < |ts| && Ambiguous(s, ts, r, now, k);
      assert !Chain(s, Record(s, ts, r, now, k));
    }
  }

  /** No capture of a run meets an ambiguous tie, whatever was read before it. */
  ghost predicate NeverAmbiguous(s: Settings, ts: seq<Transition>, captures: seq<Captured>)
    decreases |captures|
  {
    |captures| == 0
    || (!AmbiguousTie(s, ts, captures[0].reading, captures[0].at)
        && forall pick: nat ::
             NeverAmbiguous(s, Record(s, ts, captures[0].reading, captures[0].at, pick), captures[1..]))
  }

  lemma {:induction false} RunExtends(s: Settings, ts: seq<Transition>, captures: seq<Captured>, picks: seq<nat>)
    requires |picks| == |captures|
    ensures |ts| <= |Run(s, ts, captures, picks)| && Run(s, ts, captures, picks)[..|ts|] == ts
    decreases |captures|
  {
    if |captures| > 0 {
      var u := Record(s, ts, captures[0].reading, captures[0].at, picks[0]);
      var v := Run(s, u, captures[1..], picks[1..]);
      RunExtends(s, u, captures[1..], picks[1..]);
      assert u[..|ts|] == ts;
      assert v[..|u|][..|ts|] == v[..|ts|];
    }
  }

  lemma ChainPrefix(s: Settings, ts: seq<Transition>, n: nat)
    requires Chain(s, ts) && n <= |ts|
    ensures Chain(s, ts[..n])
  {
    forall i | 0 < i < n ensures Follows(s, ts[..n][i - 1], ts[..n][i]) {
      assert Follows(s, ts[i - 1], ts[i]);
    }
  }

  lemma {:induction false} UnambiguousChains(
      s: Settings, ts: seq<Transition>, captures: seq<Captured>, picks: seq<nat>)
    requires Chain(s, ts) && InOrder(ts, captures) && |picks| == |captures| && NeverAmbiguous(s, ts, captures)
    ensures Chain(s, Run(s, ts, captures, picks))
    decreases |captures|
  {
    if |captures| > 0 {
      var u := Record(s, ts, captures[0].reading, captures[0].at, picks[0]);
      PickChains(s, ts, captures[0].reading, captures[0].at, picks[0]);
      UnambiguousChains(s, u, captures[1..], picks[1..]);
    }
  }

  function Zeros(n: nat): (r: seq<nat>)
    ensures |r| == n
  {
    seq(n, _ => 0)
  }

  lemma StaysInOrder(s: Settings, ts: seq<Transition>, captures: seq<Captured>, pick: nat)
    requires InOrder(ts, captures) && |captures| > 0
    ensures InOrder(Record(s, ts, captures[0].reading, captures[0].at, pick), captures[1..])
  {
  }

  lemma RunFrom(s: Settings, ts: seq<Transition>, c: Captured, rest: seq<Captured>, pick: nat, picks: seq<nat>)
    requires |picks| == |rest|
    ensures
      Run(s, ts, [c] + rest, [pick] + picks) == Run(s, Record(s, ts, c.reading, c.at, pick), rest, picks)
  {
    assert ([c] + rest)[1..] == rest && ([pick] + picks)[1..] == picks;
  }

  lemma TieBreaks(s: Settings, ts: seq<Transition>, c: Captured, rest: seq<Captured>, k: nat)
    requires Chain(s, ts) && k < |ts| && ts[|ts| - 1].at <= c.at && Ambiguous(s, ts, c.reading, c.at, k)
    ensures !Chain(s, Run(s, ts, [c] + rest, [k] + Zeros(|rest|)))
  {
    PickChains(s, ts, c.reading, c.at, k);
    BrokenStaysBroken(s, Record(s, ts, c.reading, c.at, k), rest, Zeros(|rest|));
    RunFrom(s, ts, c, rest, k, Zeros(|rest|));
  }

  /** An ambiguous tie anywhere lets the database break the chain. */
  lemma {:induction false} AmbiguousBreaks(s: Settings, ts: seq<Transition>, captures: seq<Captured>)
    requires Chain(s, ts) && InOrder(ts, captures) && !NeverAmbiguous(s, ts, captures)
    ensures exists picks: seq<nat> :: |picks| == |captures| && !Chain(s, Run(s, ts, captures, picks))
    decreases |captures|
  {
    var c, rest := captures[0], captures[1..];
    assert captures == [c] + rest;
    if AmbiguousTie(s, ts, c.reading, c.at) {
      var k: nat :| k < |ts| && Ambiguous(s, ts, c.reading, c.at, k);
      TieBreaks(s, ts, c, rest, k);
      assert |[k] + Zeros(|rest|)| == |captures|;
    } else {
      var pick: nat :| !NeverAmbiguous(s, Record(s, ts, c.reading, c.at, pick), rest);
      var u := Record(s, ts, c.reading, c.at, pick);
      PickChains(s, ts, c.reading, c.at, pick);
      StaysInOrder(s, ts, captures, pick);
      AmbiguousBreaks(s, u, rest);
      var tail: seq<nat> :| |tail| == |rest| && !Chain(s, Run(s, u, rest, tail));
      RunFrom(s, ts, c, rest, pick, tail);
      assert |[pick] + tail| == |captures|;
    }
  }

  lemma BrokenStaysBroken(s: Settings, ts: seq<Transition>, captures: seq<Captured>, picks: seq<nat>)
    requires !Chain(s, ts) && |picks| == |captures|
    ensures !Chain(s, Run(s, ts, captures, picks))
  {
    RunExtends(s, ts, captures, picks);
    if Chain(s, Run(s, ts, captures, picks)) {
      ChainPrefix(s, Run(s, ts, captures, picks), |ts|);
    }
  }

  /** No flapping, record by record, with its exact condition: the records of a run form a chain,
      whatever the database picks among records of one time, if and only if no capture meets an
      ambiguous tie. */
  lemma RunChains(s: Settings, ts: seq<Transition>, captures: seq<Captured>)
    requires Chain(s, ts) && InOrder(ts, captures)
    ensures (forall picks: seq<nat> :: |picks| == |captures| ==> Chain(s, Run(s, ts, captures, picks)))
        <==> NeverAmbiguous(s, ts, captures)
  {
    if NeverAmbiguous(s, ts, captures) {
      forall picks: seq<nat> | |picks| == |captures| ensures Chain(s, Run(s, ts, captures, picks)) {
        UnambiguousChains(s, ts, captures, picks);
      }
    } else {
      AmbiguousBreaks(s, ts, captures);
    }
  }

  /** Captures and records of distinct times. */
  predicate Distinguished(ts: seq<Transition>, captures: seq<Captured>) {
    (forall i :: 0 <= i < |captures| && |ts| > 0 ==> ts[|ts| - 1].at < captures[i].at)
    && (forall i, j :: 0 <= i < j < |captures| ==> captures[i].at < captures[j].at)
    && (forall i, j :: 0 <= i < j < |ts| ==> ts[i].at < ts[j].at)
  }

  lemma DistinguishedIsUnambiguous(s: Settings, ts: seq<Transition>, r: Reading, now: Time)
    requires forall i, j :: 0 <= i < j < |ts| ==> ts[i].at < ts[j].at
    ensures !AmbiguousTie(s, ts, r, now)
  {
    forall k: nat | k < |ts| ensures !Ambiguous(s, ts, r, now, k) {
      if IsLatest(ts, k) {
        assert ts[|ts| - 1].at <= ts[k].at;
      }
    }
  }

  lemma {:induction false} DistinguishedNeverAmbiguous(s: Settings, ts: seq<Transition>, captures: seq<Captured>)
    requires Distinguished(ts, captures)
    ensures NeverAmbiguous(s, ts, captures)
    decreases |captures|
  {
    if |captures| > 0 {
      DistinguishedIsUnambiguous(s, ts, captures[0].reading, captures[0].at);
      forall pick: nat
        ensures NeverAmbiguous(s, Record(s, ts, captures[0].reading, captures[0].at, pick), captures[1..])
      {
        DistinguishedNeverAmbiguous(s, Record(s, ts, captures[0].reading, captures[0].at, pick), captures[1..]);
      }
    }
  }

  predicate NeverUnknown(ts: seq<Transition>) {
    forall i :: 0 <= i < |ts| ==> !ts[i].next.Unknown?
  }

  lemma {:induction false} TimesIncrease(s: Settings, ts: seq<Transition>, i: nat, j: nat)
    requires Chain(s, ts) && i <= j < |ts|
    ensures ts[i].at <= ts[j].at
  {
    if i < j {
      TimesIncrease(s, ts, i, j - 1);
      assert Follows(s, ts[j - 1], ts[j]);
    }
  }

  /** Every healthy record but the first has waited the dwell since every record before it, with
      utilisation under the recovery ratio. */
  predicate Recoveries(s: Settings, ts: seq<Transition>) {
    forall i, j :: 0 <= i < j < |ts| && ts[j].next.Healthy? ==> Recovers(s, ts[i], ts[j])
  }

  predicate Recovers(s: Settings, a: Transition, b: Transition) {
    b.at - a.at >= s.minDwell && b.utilization.Some? && b.utilization.value < s.recoveryRatio
  }

  predicate TimesOrdered(ts: seq<Transition>) {
    forall i, j :: 0 <= i < j < |ts| ==> ts[i].at <= ts[j].at
  }

  /** Record k may be read and is unknown, which holds nothing back, and the reading is healthy before
      the dwell has passed or over the ratio. */
  predicate Slips(s: Settings, ts: seq<Transition>, r: Reading, now: Time, k: nat) {
    IsLatest(ts, k) && ts[k].next.Unknown? && Assess(s, r).0.Healthy? && !Recovered(s, r, ts[k].at, now)
  }

  predicate MaySlip(s: Settings, ts: seq<Transition>, r: Reading, now: Time) {
    exists k: nat :: k < |ts| && Slips(s, ts, r, now, k)
  }

  function ReadIndex(ts: seq<Transition>, pick: nat): (k: nat)
    requires |ts| > 0
    ensures k < |ts|
  {
    if IsLatest(ts, pick) then pick else |ts| - 1
  }

  /** One capture, with the record that is read given.  Being as late as any, that record decides for
      all of them. */
  lemma PickRecovers(s: Settings, ts: seq<Transition>, r: Reading, now: Time, pick: nat)
    requires TimesOrdered(ts) && Recoveries(s, ts) && (|ts| > 0 ==> ts[|ts| - 1].at <= now)
    ensures TimesOrdered(Record(s, ts, r, now, pick))
    ensures Recoveries(s, Record(s, ts, r, now, pick))
        <==> !(|ts| > 0 && Slips(s, ts, r, now, ReadIndex(ts, pick)))
  {
    var u := Record(s, ts, r, now, pick);
    if |ts| > 0 {
      var n, k := |ts|, ReadIndex(ts, pick);
      assert IsLatest(ts, n - 1);
      assert Latest(ts, pick) == Some(ts[k]) && ts[k].at == ts[n - 1].at;
      if |u| > n {
        assert u[k] == ts[k];
        assert u[n].next.Healthy? && !Slips(s, ts, r, now, k) ==> Recovers(s, ts[k], u[n]);
        assert Slips(s, ts, r, now, k) ==> u[n].next.Healthy? && !Recovers(s, u[k], u[n]);
        forall i | 0 <= i < n && u[n].next.Healthy? && !Slips(s, ts, r, now, k) ensures Recovers(s, u[i], u[n]) {
          assert ts[i].at <= ts[n - 1].at;
        }
      }
    }
  }

  /** No capture of a run may slip, whatever was read before it. */
  ghost predicate NeverSlips(s: Settings, ts: seq<Transition>, captures: seq<Captured>)
    decreases |captures|
  {
    |captures| == 0
    || (!MaySlip(s, ts, captures[0].reading, captures[0].at)
        && forall pick: nat ::
             NeverSlips(s, Record(s, ts, captures[0].reading, captures[0].at, pick), captures[1..]))
  }

  lemma {:induction false} SlipFreeRecovers(
      s: Settings, ts: seq<Transition>, captures: seq<Captured>, picks: seq<nat>)
    requires TimesOrdered(ts) && Recoveries(s, ts) && InOrder(ts, captures) && |picks| == |captures|
    requires NeverSlips(s, ts, captures)
    ensures Recoveries(s, Run(s, ts, captures, picks))
    decreases |captures|
  {
    if |captures| > 0 {
      PickRecovers(s, ts, captures[0].reading, captures[0].at, picks[0]);
      StaysInOrder(s, ts, captures, picks[0]);
      SlipFreeRecovers(s, Record(s, ts, captures[0].reading, captures[0].at, picks[0]), captures[1..], picks[1..]);
    }
  }

  lemma SlippedStays(s: Settings, ts: seq<Transition>, captures: seq<Captured>, picks: seq<nat>)
    requires !Recoveries(s, ts) && |picks| == |captures|
    ensures !Recoveries(s, Run(s, ts, captures, picks))
  {
    var u := Run(s, ts, captures, picks);
    RunExtends(s, ts, captures, picks);
    var i, j :| 0 <= i < j < |ts| && ts[j].next.Healthy? && !Recovers(s, ts[i], ts[j]);
    assert u[..|ts|][i] == u[i] && u[..|ts|][j] == u[j];
  }

  lemma SlipBreaks(s: Settings, ts: seq<Transition>, c: Captured, rest: seq<Captured>, k: nat)
    requires TimesOrdered(ts) && Recoveries(s, ts) && k < |ts| && ts[|ts| - 1].at <= c.at
    requires Slips(s, ts, c.reading, c.at, k)
    ensures !Recoveries(s, Run(s, ts, [c] + rest, [k] + Zeros(|rest|)))
  {
    PickRecovers(s, ts, c.reading, c.at, k);
    SlippedStays(s, Record(s, ts, c.reading, c.at, k), rest, Zeros(|rest|));
    RunFrom(s, ts, c, rest, k, Zeros(|rest|));
  }

  lemma {:induction false} SomeSlip(s: Settings, ts: seq<Transition>, captures: seq<Captured>) returns (picks: seq<nat>)
    requires TimesOrdered(ts) && Recoveries(s, ts) && InOrder(ts, captures) && !NeverSlips(s, ts, captures)
    ensures |picks| == |captures| && !Recoveries(s, Run(s, ts, captures, picks))
    decreases |captures|
  {
    var c, rest := captures[0], captures[1..];
    assert captures == [c] + rest;
    if MaySlip(s, ts, c.reading, c.at) {
      var k: nat :| k < |ts| && Slips(s, ts, c.reading, c.at, k);
      SlipBreaks(s, ts, c, rest, k);
      picks := [k] + Zeros(|rest|);
    } else {
      var pick: nat :| !NeverSlips(s, Record(s, ts, c.reading, c.at, pick), rest);
      PickRecovers(s, ts, c.reading, c.at, pick);
      StaysInOrder(s, ts, captures, pick);
      var tail := SomeSlip(s, Record(s, ts, c.reading, c.at, pick), rest);
      RunFrom(s, ts, c, rest, pick, tail);
      picks := [pick] + tail;
    }
  }

  /** No recovery before the dwell or over the ratio, with its exact condition, ties or not: it holds of
      a run, whatever the database picks, if and only if no capture is healthy too soon after an
      unknown record of the latest time. */
  lemma RecoveriesExactly(s: Settings, ts: seq<Transition>, captures: seq<Captured>)
    requires TimesOrdered(ts) && Recoveries(s, ts) && InOrder(ts, captures)
    ensures (forall picks: seq<nat> :: |picks| == |captures| ==> Recoveries(s, Run(s, ts, captures, picks)))
        <==> NeverSlips(s, ts, captures)
  {
    if NeverSlips(s, ts, captures) {
      forall picks: seq<nat> | |picks| == |captures| ensures Recoveries(s, Run(s, ts, captures, picks)) {
        SlipFreeRecovers(s, ts, captures, picks);
      }
    } else {
      var picks := SomeSlip(s, ts, captures);
    }
  }

  /** Nothing slips where every reading can be judged, as it can with a subscription capacity. */
  lemma {:induction false} JudgedNeverSlips(s: Settings, ts: seq<Transition>, captures: seq<Captured>)
    requires NeverUnknown(ts)
    requires forall i :: 0 <= i < |captures| ==> !Assess(s, captures[i].reading).0.Unknown?
    ensures NeverSlips(s, ts, captures)
    decreases |captures|
  {
    if |captures| > 0 {
      forall pick: nat
        ensures NeverSlips(s, Record(s, ts, captures[0].reading, captures[0].at, pick), captures[1..])
      {
        JudgedNeverSlips(s, Record(s, ts, captures[0].reading, captures[0].at, pick), captures[1..]);
      }
    }
  }

  /** The times of the healthy records in a window. */
  function HealthyTimes(ts: seq<Transition>, from: Time, to: Time): seq<Time> {
    if |ts| == 0 then []
    else
      var last := ts[|ts| - 1];
      HealthyTimes(ts[..|ts| - 1], from, to)
      + if last.next.Healthy? && from <= last.at <= to then [last.at] else []
  }

  predicate HealthyAt(ts: seq<Transition>, at: Time) {
    exists i :: 0 <= i < |ts| && ts[i].next.Healthy? && ts[i].at == at
  }

  /** Any two healthy records are the dwell apart. */
  predicate HealthyGaps(ts: seq<Transition>, dwell: int) {
    forall i, j :: 0 <= i < j < |ts| && ts[i].next.Healthy? && ts[j].next.Healthy? ==> ts[j].at - ts[i].at >= dwell
  }

  lemma HealthyBefore(ts: seq<Transition>, dwell: int, n: nat, at: Time)
    requires HealthyGaps(ts, dwell) && n < |ts| && HealthyAt(ts[..n], at)
    ensures HealthyAt(ts, at)
    ensures ts[n].next.Healthy? ==> ts[n].at - at >= dwell
  {
    var i :| 0 <= i < n && ts[..n][i].next.Healthy? && ts[..n][i].at == at;
    assert ts[i].next.Healthy? && ts[i].at == at;
  }

  /** Times in a window, each the dwell after the one before. */
  predicate Spaced(times: seq<Time>, dwell: int, from: Time, to: Time) {
    |times| == 0
    || var n := |times| - 1;
       && from <= times[n] <= to
       && (n > 0 ==> times[n] - times[n - 1] >= dwell)
       && Spaced(times[..n], dwell, from, to)
  }

  lemma {:induction false} HealthyTimesSpaced(ts: seq<Transition>, dwell: int, from: Time, to: Time)
    requires HealthyGaps(ts, dwell)
    ensures
      var times := HealthyTimes(ts, from, to);
      Spaced(times, dwell, from, to) && (|times| > 0 ==> HealthyAt(ts, times[|times| - 1]))
  {
    if |ts| > 0 {
      var n := |ts| - 1;
      HealthyTimesSpaced(ts[..n], dwell, from, to);
      var before, times := HealthyTimes(ts[..n], from, to), HealthyTimes(ts, from, to);
      if |before| > 0 {
        HealthyBefore(ts, dwell, n, before[|before| - 1]);
      }
      if ts[n].next.Healthy? && from <= ts[n].at <= to {
        assert times == before + [ts[n].at] && times[..|before|] == before;
        assert HealthyAt(ts, ts[n].at);
      } else {
        assert times == before;
      }
    }
  }

  lemma {:induction false} Span(times: seq<Time>, dwell: int, from: Time, to: Time)
    requires Spaced(times, dwell, from, to) && |times| > 0
    ensures from <= times[0] && times[|times| - 1] - times[0] >= (|times| - 1) * dwell
  {
    var n := |times| - 1;
    if n > 0 {
      Span(times[..n], dwell, from, to);
      assert n * dwell == (n - 1) * dwell + dwell;
    }
  }

  /** The rate of recoveries: in a run without a slip, ties or not, any window of length T holds at most
      T / dwell + 1 healthy records. */
  lemma SlipFreeRate(s: Settings, captures: seq<Captured>, picks: seq<nat>, from: Time, length: nat)
    requires s.minDwell > 0 && InOrder([], captures) && |picks| == |captures| && NeverSlips(s, [], captures)
    ensures |HealthyTimes(Run(s, [], captures, picks), from, from + length)| <= length / s.minDwell + 1
  {
    SlipFreeRecovers(s, [], captures, picks);
    RecoveriesGaps(s, Run(s, [], captures, picks));
    WindowBound(Run(s, [], captures, picks), s.minDwell, from, length);
  }

  /** ... and so with a subscription capacity configured throughout. */
  lemma HealthyRate(s: Settings, captures: seq<Captured>, picks: seq<nat>, from: Time, length: nat)
    requires s.minDwell > 0 && InOrder([], captures) && |picks| == |captures|
    requires forall i :: 0 <= i < |captures| ==> captures[i].reading.subscriptionCapacity > 0
    ensures |HealthyTimes(Run(s, [], captures, picks), from, from + length)| <= length / s.minDwell + 1
  {
    JudgedNeverSlips(s, [], captures);
    SlipFreeRate(s, captures, picks, from, length);
  }

  lemma RecoveriesGaps(s: Settings, ts: seq<Transition>)
    requires Recoveries(s, ts)
    ensures HealthyGaps(ts, s.minDwell)
  {
  }

  lemma WindowBound(ts: seq<Transition>, dwell: int, from: Time, length: nat)
    requires dwell > 0 && HealthyGaps(ts, dwell)
    ensures |HealthyTimes(ts, from, from + length)| <= length / dwell + 1
  {
    HealthyTimesSpaced(ts, dwell, from, from + length);
    SpacedCount(HealthyTimes(ts, from, from + length), dwell, from, length);
  }

  lemma SpacedCount(times: seq<Time>, dwell: int, from: Time, length: nat)
    requires dwell > 0 && Spaced(times, dwell, from, from + length)
    ensures |times| <= length / dwell + 1
  {
    if |times| > 0 {
      Span(times, dwell, from, from + length);
      QuotientBound(|times| - 1, dwell, length);
    }
  }

  lemma QuotientBound(k: nat, d: int, n: nat)
    requires d > 0 && k * d <= n
    ensures k <= n / d
  {
    assert (n / d + 1 - k) * d > 0;
  }

  /* ---------- without a configured capacity ---------- */

  const QUIET := Reading(0, None, 0, 0, None, None, 0, 0, 0)

  /** A reading without any ratio is unknown, which is not held, so strain can end in health
      without any dwell at all. */
  lemma UnknownSkipsDwell(s: Settings, ts: seq<Transition>, r: Reading, now: Time)
    requires |ts| > 0 && Strained(ts[|ts| - 1].next) && ts[|ts| - 1].at < now && IsLatest(ts, |ts| - 1)
    requires s.staleWorkerLimit > 0 && s.refundLimit > 0 && s.notificationLimit > 0
    requires Assess(s, r).0.Healthy?
    ensures
      var u := Record(s, Record(s, ts, QUIET, now, |ts| - 1), r, now + 1, |ts|);
      |u| == |ts| + 2 && u[|ts|].next.Unknown? && u[|ts| + 1].next.Healthy?
  {
  }

  /* ---------- two records of one time ---------- */

  const TIED_SETTINGS := Settings(0.9, 0.7, 0.5, 10, 100, 100, 100, 100)

  function Busy(active: nat): Reading {
    Reading(active, None, 100, 0, None, None, 0, 0, 0)
  }

  /** Healthy and saturated at the same instant, then constrained: the third capture may read the first
      record as the latest. */
  const TIED_RUN := [Captured(Busy(10), 5), Captured(Busy(95), 5), Captured(Busy(75), 6)]

  lemma TiedRecordsMisread()
    ensures InOrder([], TIED_RUN)
    ensures !NeverAmbiguous(TIED_SETTINGS, [], TIED_RUN)
    ensures !Chain(TIED_SETTINGS, Run(TIED_SETTINGS, [], TIED_RUN, [0, 0, 0]))
  {
    var s, c0, c1, c2 := TIED_SETTINGS, TIED_RUN[0], TIED_RUN[1], TIED_RUN[2];
    var t1 := Record(s, [], c0.reading, c0.at, 0);
    var t2 := Record(s, t1, c1.reading, c1.at, 0);
    var t3 := Record(s, t2, c2.reading, c2.at, 0);
    assert t1[0].next.Healthy? && t2[1].next.Saturated? && IsLatest(t2, 0);
    assert t3[2].previous == Some(Healthy);
    assert TIED_RUN[1..] == [c1, c2] && [c1, c2][1..] == [c2] && [c2][1..] == [];
    assert [0, 0, 0][1..] == [0, 0] && [0, 0][1..] == [0] && [0][1..] == [];
    assert Run(s, t2, [c2], [0]) == Run(s, t3, [], []);
    assert Run(s, t1, [c1, c2], [0, 0]) == Run(s, t2, [c2], [0]);
    assert !Follows(s, t3[1], t3[2]);
    if NeverAmbiguous(s, [], TIED_RUN) {
      UnambiguousChains(s, [], TIED_RUN, [0, 0, 0]);
    }
  }
}
