/** Replacement chains: the history of one device through regenerations and transfers. */
module Transfers {
  import opened Text
  import opened Canonical
  import opened DevicePolicy
  import opened DeviceTable
  import opened Registry
  import opened Lifecycle
  import opened Growth

  /** How row i continues the row it replaces. */
  predicate Continues(t: Table, i: nat, cooldown: int)
    requires i < |t|
  {
    match t[i].origin
    case Issued => t[i].lastTransferAt.None? && t[i].transferCount == 0
    case RegeneratedFrom(k) =>
      k < i && t[i].channel.DeviceLink?
      && t[i].lastTransferAt == t[k].lastTransferAt && t[i].transferCount == t[k].transferCount
    case TransferredFrom(k) =>
      k < i && t[i].channel.DeviceLink?
      && t[i].lastTransferAt.Some? && t[i].transferCount == t[k].transferCount + 1
      && (t[k].lastTransferAt.Some? ==> t[k].lastTransferAt.value + cooldown <= t[i].lastTransferAt.value)
  }

  predicate Chained(t: Table, cooldown: int) {
    forall i :: 0 <= i < |t| ==> Continues(t, i, cooldown)
  }

  /** A personal link that has been replaced is revoked, and was replaced once. */
  predicate ReplacedOnce(t: Table) {
    && (forall i :: 0 <= i < |t| && !t[i].origin.Issued? && t[i].origin.source < |t| ==>
          t[t[i].origin.source].channel.DeviceLink? ==> t[t[i].origin.source].revokedAt.Some?)
    && (forall i, j :: 0 <= i < j < |t| && !t[i].origin.Issued? && !t[j].origin.Issued?
                       && t[i].origin.source == t[j].origin.source && t[i].origin.source < |t| ==>
          t[t[i].origin.source].channel.UnifiedFeed?)
  }

  lemma GrowthChains(t: Table, u: Table, now: Time, cooldown: int)
    requires Chained(t, cooldown) && TableEvolves(t, u) && Grows(t, u, now, cooldown)
    ensures Chained(u, cooldown)
  {
    forall i | 0 <= i < |u| ensures Continues(u, i, cooldown) {
      if i < |t| {
        assert Continues(t, i, cooldown) && Evolves(t[i], u[i]);
        if !t[i].origin.Issued? {
          assert Evolves(t[t[i].origin.source], u[t[i].origin.source]);
        }
      } else if !u[i].origin.Issued? {
        assert Evolves(t[u[i].origin.source], u[u[i].origin.source]);
      }
    }
  }

  /** A row that has been replaced before the table grew. */
  lemma OldSource(t: Table, u: Table, cooldown: int, i: nat)
    requires Chained(t, cooldown) && ReplacedOnce(t) && TableEvolves(t, u) && i < |t| && !t[i].origin.Issued?
    ensures u[i].origin == t[i].origin && t[i].origin.source < |t|
    ensures u[t[i].origin.source].channel.DeviceLink? ==>
              t[t[i].origin.source].revokedAt.Some? && u[t[i].origin.source].revokedAt.Some?
  {
    assert Evolves(t[i], u[i]) && Continues(t, i, cooldown);
    assert Evolves(t[t[i].origin.source], u[t[i].origin.source]);
  }

  lemma GrowthReplacesOnce(t: Table, u: Table, now: Time, cooldown: int)
    requires Chained(t, cooldown) && ReplacedOnce(t) && TableEvolves(t, u) && Grows(t, u, now, cooldown)
    ensures ReplacedOnce(u)
  {
    forall i | 0 <= i < |t| ensures u[i].origin == t[i].origin {
      assert Evolves(t[i], u[i]);
    }
    forall i | 0 <= i < |u| && !u[i].origin.Issued? && u[i].origin.source < |u|
      ensures u[u[i].origin.source].channel.DeviceLink? ==> u[u[i].origin.source].revokedAt.Some?
    {
      if i < |t| {
        OldSource(t, u, cooldown, i);
      }
    }
    forall i, j | 0 <= i < j < |u| && !u[i].origin.Issued? && !u[j].origin.Issued?
                  && u[i].origin.source == u[j].origin.source && u[i].origin.source < |u|
      ensures u[u[i].origin.source].channel.UnifiedFeed?
    {
      OldSource(t, u, cooldown, i);
      if j < |t| {
        assert t[t[i].origin.source].channel == u[t[i].origin.source].channel;
      }
    }
  }

  lemma StepChains(db: Db, e: Event, cooldown: int)
    requires TableInvariant(db.devices) && Chained(db.devices, cooldown) && ReplacedOnce(db.devices)
    requires RespectsCooldown(e, cooldown)
    ensures Chained(Step(db, e).devices, cooldown) && ReplacedOnce(Step(db, e).devices)
  {
    StepGood(db, e);
    StepGrows(db, e, cooldown);
    GrowthChains(db.devices, Step(db, e).devices, e.at, cooldown);
    GrowthReplacesOnce(db.devices, Step(db, e).devices, e.at, cooldown);
  }

  predicate AllRespectCooldown(events: seq<Event>, cooldown: int) {
    forall k :: 0 <= k < |events| ==> RespectsCooldown(events[k], cooldown)
  }

  lemma {:induction false} RunChains(db: Db, events: seq<Event>, cooldown: int)
    requires TableInvariant(db.devices) && Chained(db.devices, cooldown) && ReplacedOnce(db.devices)
    requires AllRespectCooldown(events, cooldown)
    ensures Chained(Run(db, events).devices, cooldown) && ReplacedOnce(Run(db, events).devices)
    decreases |events|
  {
    if |events| > 0 {
      StepChains(db, events[0], cooldown);
      StepGood(db, events[0]);
      RunChains(Step(db, events[0]), events[1..], cooldown);
    }
  }

  /** The times of the transfers along the chain that ends in row i, oldest first. */
  function TransferTimes(t: Table, i: nat, cooldown: int): seq<Time>
    requires i < |t| && Chained(t, cooldown)
    decreases i
  {
    assert Continues(t, i, cooldown);
    match t[i].origin
    case Issued => []
    case RegeneratedFrom(k) => TransferTimes(t, k, cooldown)
    case TransferredFrom(k) => TransferTimes(t, k, cooldown) + [t[i].lastTransferAt.value]
  }

  /** The counter of a row counts the transfers of its chain, its timestamp is the last of them,
      and neighbouring transfers are a cooldown apart. */
  lemma {:induction false} ChainCounts(t: Table, i: nat, cooldown: int)
    requires i < |t| && Chained(t, cooldown)
    ensures
      var times := TransferTimes(t, i, cooldown);
      && |times| == t[i].transferCount
      && t[i].lastTransferAt == (if |times| == 0 then None else Some(times[|times| - 1]))
      && forall k :: 0 < k < |times| ==> times[k - 1] + cooldown <= times[k]
    decreases i
  {
    assert Continues(t, i, cooldown);
    if !t[i].origin.Issued? {
      ChainCounts(t, t[i].origin.source, cooldown);
    }
  }

  lemma {:induction false} Spacing(times: seq<Time>, cooldown: int, j: nat, k: nat)
    requires forall k :: 0 < k < |times| ==> times[k - 1] + cooldown <= times[k]
    requires j <= k < |times|
    ensures times[k] - times[j] >= (k - j) * cooldown
  {
    if j < k {
      Spacing(times, cooldown, j, k - 1);
    }
  }

  /** The rate of transfers over any run whose transfers all wait at least a cooldown: along every
      chain the counter is the number of transfers and any two of them are as many cooldowns apart
      as there are transfers between them. */
  lemma TransferRate(events: seq<Event>, cooldown: int, i: nat)
    requires AllRespectCooldown(events, cooldown) && i < |Run(EMPTY, events).devices|
    ensures Chained(Run(EMPTY, events).devices, cooldown)
    ensures
      var times := TransferTimes(Run(EMPTY, events).devices, i, cooldown);
      && |times| == Run(EMPTY, events).devices[i].transferCount
      && forall j, k :: 0 <= j <= k < |times| ==> times[k] - times[j] >= (k - j) * cooldown
  {
    RunChains(EMPTY, events, cooldown);
    ChainCounts(Run(EMPTY, events).devices, i, cooldown);
    var times := TransferTimes(Run(EMPTY, events).devices, i, cooldown);
    forall j, k | 0 <= j <= k < |times| ensures times[k] - times[j] >= (k - j) * cooldown {
      Spacing(times, cooldown, j, k);
    }
  }

  /** Chains do not fork: no two rows of a reachable table replace the same personal link. */
  lemma ChainsDoNotFork(events: seq<Event>, cooldown: int, i: nat, j: nat, k: nat)
    requires AllRespectCooldown(events, cooldown)
    requires i < j < |Run(EMPTY, events).devices|
    requires k < |Run(EMPTY, events).devices| && Run(EMPTY, events).devices[k].channel.DeviceLink?
    ensures !(Run(EMPTY, events).devices[i].origin.Replaces(k) && Run(EMPTY, events).devices[j].origin.Replaces(k))
  {
    RunChains(EMPTY, events, cooldown);
  }
}
