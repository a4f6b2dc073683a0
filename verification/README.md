# VpnMediator, verified

A Dafny model of the VPN mediator and of the protocols of its Telegram bot, with proofs of what they
promise. `dafny verify dfyconfig.toml` checks everything.

**The device registry.** Every subscription owns a table of devices. A device is a personal link or a
device of the unified feed, pending, active or revoked, and is created, regenerated, transferred,
validated, resolved, activated, enabled and revoked by transactions that decide from counts over the
table. `Registry` gives each transaction as a function from one database state to the next;
`Repository` is the repository class whose methods execute the statements in order, are proved to
compute those functions and keep everything in `Consistency`; `FeedHandler` is the HTTP handler that strings two of them together. A *run*
is any sequence of transactions with the time each was given, so every interleaving of split
operations (resolve then activate, read then read-repair) is a run. The theorems about runs are:
the slot bound and exactly when it holds (`SlotBound`, `SlotRuns`), exactly-once issuance
(`Growth`, `Issuance`, `KeylessRequests`), unique indexes (`Uniqueness`), one row per HWID and exactly when
(`IdentityRows`, `DeniedDevices`), write-once owners and erased credentials (`Lifecycle`,
`Ownership`), coherence of the entitlement log (`EntitlementLog`) and the rate of transfers along
replacement chains (`Transfers`, `Forks`). `Reports` relates what transactions tell their callers to the state
they leave. What each operation must do is stated apart from how it is computed: whom the feed admits
(`FeedAdmission`), whom a link admits and binds itself to (`LinkAccess`), what revoking withdraws
(`Revocations`), what issuing, regenerating and transferring leave behind and that the new secret works
(`IssuedLinks`, `TransferLog`), and when entitlements change (`EntitlementUpdates`).

**The catalogue.** Server links are deduplicated, ordered by a natural order of their names and
capped (`Ordering`, `NaturalOrder`, `Presentation`, `Fingerprint`). A refresh reads every source, falls
back to cached snapshots, republishes or rejects (`Publisher`, `CatalogStore`); `PublishedCatalogues`
proves what holds of every published row when rollbacks and source tests come between the steps of a
refresh, and `Refreshing` what a refresh must use, publish and serve.

**The bot.** A broadcast is snapshotted and enqueued in keyset batches by confirmations that may
repeat, overlap and crash (`Broadcast`, `BroadcastRuns`); capacity is monitored with hysteresis
(`Capacity`); commerce switches are changed by compare-and-set after a preview (`CommercePolicy`).

**Codecs.** Base64 and UTF-8 (`Base64`), the subscription body (`SubscriptionCodec`), checkout tokens
(`CheckoutTokens`), network ranges (`Cidr`) and the canonical payloads behind request fingerprints
(`Canonical`).

Ten promises do not hold of the code on all inputs. Each has a concrete counterexample or a failing
condition and a theorem that says exactly when it holds:

- Activation does not re-check its reservation. The slot bound holds over a run if and only if every
  activation in it is harmless (`SlotRuns.SlotBoundExactly`, `SlotRuns.LateActivationOverflows`).
- Only the current and the previous identity key are looked up. One row per HWID holds over a run if
  and only if no resolve inserts for a HWID whose row is hashed under neither
  (`IdentityRows.OneRowExactly`), and a disabled HWID that nobody enables stays denied over a run if and
  only if none of its own resolves finds room under keys that can reproduce no stored hash
  (`DeniedDevices.RevokedHwidStaysDenied`, `DeniedDevices.TwoRotationsLetBackIn`).
- Requests without an idempotency key get one that in legacy mode may name the next free slot. A key
  that is held never makes a second device (`Issuance.ExactlyOnce`), but an identical repeat comes under
  the same key if and only if the mode is unchanged and, when it is unnamed in legacy mode, as many
  slots are taken. Under another key it adds a row if and only if the state it finds meets the guard of
  the insert (`KeylessRequests.RepeatCreatesExactly`, `KeylessRequests.UnnamedRepeatCreates`).
- Regenerating and transferring find a device of either channel, and a device of the feed can be enabled
  after it has been replaced. A chain forks if and only if a call finds its guard met on a device that
  has been replaced before; such a device was enabled between its replacements, and as it has no
  transfer time its cooldown starts over (`Forks.ForksExactly`, `Forks.DoublyReplacedWasEnabled`,
  `Forks.FeedDeviceForks`).
- Digit runs that overflow a 64-bit integer are compared as text. The natural order is total below a
  bound on digit runs if and only if the bound is at most 2^63 (`NaturalOrder.NaturalOrderExactly`,
  `NaturalOrder.NaturalCycle`).
- So the order in which sources are read can matter to what is published. The comparisons determine the
  list if and only if no three representatives compare in a circle (`Presentation.OrderDetermined`); then
  reading order never matters, and otherwise it does to the modelled sort, while the library leaves its
  result open (`Presentation.BuildOrderExactly`, `Presentation.CirclePublishesTwoOrders`).
- Links that are empty, untrimmed or contain line ends do not survive the subscription codec
  (`SubscriptionCodec.CodecRoundTrip`).
- The latest capacity record is not determined when two have the same time. The records of a run form a
  chain, whatever is picked, if and only if no capture meets an ambiguous tie (`Capacity.RunChains`,
  `Capacity.TiedRecordsMisread`). With a capacity configured a tie can break only the chaining and the
  difference of neighbours, never the dwell, the ratio or the rate (`Capacity.HealthyRate`).
- A reading without a ratio is unknown, which holds nothing back. Recoveries wait the dwell and stay under
  the ratio, ties or not, if and only if no capture is healthy too soon after an unknown record
  (`Capacity.RecoveriesExactly`, `Capacity.UnknownSkipsDwell`).
- A late confirmation writes the expiry of its campaign without looking again. A confirmed campaign stays
  confirmed if and only if no call that read it earlier goes on to expire it
  (`BroadcastRuns.ConfirmedStaysExactly`, `BroadcastRuns.StaleExpiryOverwrites`), and an expired one can
  be completed if and only if some call is still under way that will (`BroadcastRuns.CompletableExactly`,
  `BroadcastRuns.StaleExpiryStrands`); nobody is enqueued twice all the same
  (`BroadcastRuns.ExactlyOnce`).

Two interactions hold that a reader of either operation alone would not expect: issuing a personal link
locks out devices of the feed whose reservation has just lapsed
(`DeniedDevices.IssuingLocksOutLapsed`), and a regeneration refused for want of a slot reports a count
that leaves out the device it did not replace (`Reports.RegenerateReports`).

## Model

| member | source | states |
|---|---|---|
| `SlotRuns.SlotBoundExactly` | MediatorStorage.cs:901-935 | from any bounded state and for every run of transactions with timestamps in order: active plus unexpired pending devices stay within every subscription's limit if and only if each activation of the run is harmless where it happens |
| `SlotRuns.SlotBoundOverRuns` | UnifiedSubscriptionFeed.cs:355-422 | from the empty database, with timestamps in order and every activation before its reservation expires, no interleaving ever exceeds a limit |
| `SlotRuns.ActivationBounded` | UnifiedSubscriptionFeed.cs:549-563 | activation, which counts nothing, keeps the bound exactly when the row is already live, revoked or absent, or a slot is free |
| `SlotRuns.StepBounded` | UnifiedSubscriptionFeed.cs:694-724 | every transaction other than activation keeps the bound unconditionally |
| `SlotRuns.TimelyIsHarmless` | UnifiedSubscriptionFeed.cs:538-575 | an activation before the reservation ends completes a row that still holds its slot; this needs the unstated invariant that a pending unified row has equal, non-null pending and provisioning deadlines |
| `SlotRuns.ActiveConflictUnreachable` | MediatorStorage.cs:567-583 | within the bound neither entitlement update ever reports more active devices than its limit |
| `SlotRuns.LateActivationOverflows` | UnifiedSubscriptionFeed.cs:549-563 | a concrete run with one slot in which a late activation leaves two live devices |
| `SlotBound.CreateTokenSlots` | MediatorStorage.cs:901-935 | issuing a link expires, counts and inserts without exceeding the limit of its subscription, or of any other |
| `SlotBound.RegenerateSlots` | MediatorStorage.cs:1190-1246 | regenerating frees one slot and takes at most one, and leaves everything as it was if none is left |
| `SlotBound.TransferSlots` | MediatorStorage.cs:1494-1564 | so does transferring |
| `SlotBound.ValidateSlots` | MediatorStorage.cs:1926-1939 | a first use of a link activates a reservation it already held |
| `SlotBound.ResolveSlots` | UnifiedSubscriptionFeed.cs:326-422 | resolving a HWID reserves a slot only if one is free, also when it renews a lapsed reservation |
| `SlotBound.EnableSlots` | UnifiedSubscriptionFeed.cs:694-724 | enabling a device takes a slot only if one is free |
| `SlotBound.PutEntitlementSlots` | MediatorStorage.cs:567-583 | a limit never shrinks, so changing it keeps the bound |
| `DeviceTable.ActiveAndPendingAreOccupied` | UnifiedSubscriptionFeed.cs:790-812 | the two counts of the link operations add up to the one count of the feed |
| `Consistency.StepConsistent` | MediatorStorage.cs:1883-1964 | every transaction keeps the indexes, the row invariant, rooted rows and the coherent log, and every one but activation keeps the bound |
| `Consistency.RunConsistent` | MediatorStorage.cs:4210-4214 | so does every run |
| `FeedHandler.PermittedMeansReserved` | Program.cs:1338-1348 | a permitted resolve leaves a unified, unrevoked row that holds its slot at that moment, so activating it at once is harmless |
| `FeedHandler.ServeFeed` | Program.cs:1338-1375 | the handler is the resolve followed by the activation; links are served only to a device that is then active, and a missing catalogue activates nothing |
| `Issuance.ExactlyOnce` | MediatorStorage.cs:733-839 | after a request has been answered with a device under a key, the caller's or a compatibility key, in every later state exactly one row holds the key, and a later request that comes under it adds no row and is refused as a reuse if and only if it asks for another name or platform |
| `KeylessRequests.KeylessKeysAgree` | MediatorStorage.cs:733-755 | two requests without a key come under the same one if and only if the mode is the same and, in legacy mode, their names are, or, in the others, they are the same request |
| `KeylessRequests.RepeatKeysAgree` | MediatorStorage.cs:708-755 | an identical repeat without a key comes under the same compatibility key if and only if the mode is unchanged and, when unnamed in legacy mode, as many slots are taken as the first time |
| `KeylessRequests.CreatesExactly` | MediatorStorage.cs:733-935 | a request creates a device if and only if the state it finds admits it, nobody holds its effective key, it adopts no legacy row, a slot is free and the public id is fresh |
| `KeylessRequests.RepeatCreatesExactly` | MediatorStorage.cs:708-935 | after any run, an identical repeat without a key adds a row if and only if its key has changed, because the mode has or, unnamed in legacy mode, the number of taken slots has, and the later state meets that guard |
| `KeylessRequests.UnnamedRepeatCreates` | MediatorStorage.cs:708-755 | a run in which an identical unnamed legacy request creates a second device |
| `Issuance.ReplayNeverCreates` | MediatorStorage.cs:757-839 | any request whose effective key is held: only stale reservations change, and the result names the one holder or refuses |
| `Issuance.HeldForRuns` | MediatorStorage.cs:1180-1246 | a key that is held stays held with its request hash over every run, through regeneration and transfer |
| `Issuance.CreatedHolds` | MediatorStorage.cs:841-935 | a request answered with a device, created, adopted or replayed, leaves its effective key held for that request |
| `Growth.StepGrows` | MediatorStorage.cs:1484-1564 | a transaction adds no row, one fresh row, or the replacement of one row that gives up its key and is revoked in the same step; all other keys stay |
| `Uniqueness.RunUnique` | MediatorStorage.cs:4210-4214 | the unique indexes on public id, issuance key and unified identity hold in every state of every run |
| `Uniqueness.CreateTokenCollides` | MediatorStorage.cs:5137-5220 | issuing can only run into an index by drawing a public id twice |
| `Uniqueness.RegenerateCollides` | MediatorStorage.cs:1229-1246 | so can regenerating |
| `Uniqueness.TransferCollides` | MediatorStorage.cs:1536-1590 | a transfer likewise, or by an operation id another subscription has used |
| `Canonical.IssuancePayloadInjective` | MediatorStorage.cs:5248-5261 | equal issuance payloads have equal subscription, name and platform, even when the name contains NULs |
| `Canonical.TransferPayloadInjective` | MediatorStorage.cs:5338-5345 | equal transfer payloads have equal subscription, device and platform |
| `IdentityRows.ResolveCollides` | UnifiedSubscriptionFeed.cs:408-510 | no resolve ever runs into the identity index, whatever keys were rotated |
| `IdentityRows.LookupFindsCovered` | UnifiedSubscriptionFeed.cs:748-788 | the lookup finds the row of a HWID if and only if a configured key reproduces its stored hash |
| `IdentityRows.ResolveInserts` | UnifiedSubscriptionFeed.cs:382-535 | exactly when a resolve inserts a row, and that row |
| `IdentityRows.ResolveOneRow` | UnifiedSubscriptionFeed.cs:326-382 | a resolve leaves one row per HWID if and only if it does not insert for a HWID whose row is stranded under a key no longer configured |
| `IdentityRows.OneRowExactly` | UnifiedSubscriptionFeed.cs:849-867 | over runs: one row per HWID in every state if and only if no resolve strands one |
| `Lifecycle.StepGood` | MediatorStorage.cs:1883-1964 | every transaction keeps the row invariant and evolves each row only as allowed; only the enabling of that very row revives a revoked one, and only a resolve adds a row of the feed |
| `IdentityRows.LookupFindsSole` | UnifiedSubscriptionFeed.cs:748-788 | the only row of a HWID is found if and only if a configured key reproduces its stored hash |
| `DeniedDevices.StepKeepsRevoked` | MediatorStorage.cs:1710-1726 | no transaction but the enabling of that very row brings a revoked row back |
| `DeniedDevices.RevokedHwidStaysDenied` | UnifiedSubscriptionFeed.cs:326-422 | over any run that enables none of them, every resolve by a HWID whose rows, however many, are all revoked is refused if and only if none of them finds room under keys that can reproduce no stored hash |
| `DeniedDevices.RevokedHwidAdmits` | UnifiedSubscriptionFeed.cs:326-422 | one resolve by such a HWID is admitted, with a new row, if and only if it finds room and no configured key covers a stored hash |
| `DeniedDevices.TwoRotationsLetBackIn` | UnifiedSubscriptionFeed.cs:748-788 | a run from the empty database in which a HWID that its user disabled, and nobody enabled, is admitted after two rotations and owns two rows |
| `DeniedDevices.LapsedMayReturn` | UnifiedSubscriptionFeed.cs:355-399 | a device of the feed that the lookup finds, and whose reservation has lapsed, is let back in by asking again exactly when a slot is free |
| `DeniedDevices.IssuingLocksOutLapsed` | MediatorStorage.cs:5422-5443 | but if a personal link is issued to its subscription first, even as a replay, the expiry revokes it and it is refused until it is enabled |
| `Reports.PermittedExactly` | MediatorStorage.cs:1881-2095 | an access is permitted if and only if the secret matches, the row is unrevoked and live, a first use finds room, the subscription is active and in date, the policy allows it and no hash clashes; it violates an index if and only if all of this holds but the refreshed hash of a feed row is taken; a permitted link is then active and the reported count includes it |
| `Reports.LinkPermittedExactly` | MediatorStorage.cs:1881-2095 | for a personal link nothing clashes and the plain condition is exact |
| `Reports.NothingClashes` | MediatorStorage.cs:5835-5866 | no hash clashes for a personal link, nor for a feed row while every HWID has one row |
| `Reports.CreateTokenReports` | MediatorStorage.cs:706-989 | the counts a created, replayed or refused link reports are those of the state left behind, within or at the limit accordingly |
| `Reports.RegenerateReports` | MediatorStorage.cs:1200-1222 | a regeneration that reaches the limit reports one live row fewer than the state it restored |
| `Reports.TransferRowReports` | MediatorStorage.cs:1506-1530 | a transfer that creates reports the state it leaves |
| `Reports.FeedReports` | UnifiedSubscriptionFeed.cs:391-535 | the occupancy a permitted resolve reports is that of the state it leaves |
| `Reports.EnableReports` | UnifiedSubscriptionFeed.cs:684-746 | so is that of an enabled device, within the limit |
| `Reports.ResetFreesEverySlot` | MediatorStorage.cs:1768-1782 | after a reset no device takes a slot at any time |
| `DevicePolicy.RebindKeepsOwner` | MediatorStorage.cs:5743-5866 | whatever the modes, an access never moves a bound row to another HWID, and a row that becomes bound is bound to the HWID presented |
| `DevicePolicy.MatchMeansSameHwid` | DeviceFeedAccessPolicy.cs:145-159 | a match under either key is a match of HWIDs |
| `DevicePolicy.EnforcedAccess` | DeviceFeedAccessPolicy.cs:304-368 | under full enforcement a bound version-2 row admits exactly its own HWID, under a configured key, from a platform that does not contradict it |
| `DevicePolicy.OnlyEnforcementRefuses` | DeviceFeedAccessPolicy.cs:206-252 | an access is refused only when the global and the row mode are both enforce |
| `Ownership.OwnerIsWriteOnce` | MediatorStorage.cs:5787-5832 | the HWID behind the bound hash of a version-2 link never changes over any run |
| `Ownership.EnforcedAccessIsOwners` | MediatorStorage.cs:1978-2035 | every access that enforcement permits at any later time comes from the HWID the link was first bound to |
| `Ownership.RevokedRowsStoreNothing` | MediatorStorage.cs:5468-5491 | in every reachable state a row revoked by its user, a reset, a regeneration or a transfer stores no credential |
| `Ownership.RevokedLinksStayRevoked` | MediatorStorage.cs:5422-5443 | a revoked link keeps its first revocation time and reason, and an erased credential stays erased |
| `Ownership.LateRepairFindsNothing` | MediatorStorage.cs:998-1055 | a credential read without the lock and repaired after the link was revoked changes nothing |
| `Lifecycle.RunGood` | MediatorStorage.cs:1883-1964 | the row invariant holds in every state, and identity, secret, owner, transfer history and revocation evolve only as allowed |
| `Lifecycle.ValidateGood` | MediatorStorage.cs:1804-2108 | one access keeps the row invariant |
| `Lifecycle.ResolveGood` | UnifiedSubscriptionFeed.cs:215-536 | one resolve keeps it |
| `Lifecycle.ReadRepairGood` | MediatorStorage.cs:5072-5135 | a late read-repair cannot restore an erased credential |
| `EntitlementLog.RunLogs` | MediatorStorage.cs:420-468 | over runs, with unlogged updates interleaved: no log row is ahead of the entitlement, the one at its version equals it, result versions are unique per subscription, versions only advance and log rows are never rewritten |
| `EntitlementLog.OperationsApplyOnce` | MediatorStorage.cs:379-395 | once applied, an operation id changes nothing ever again and is answered with its recorded result if and only if the request is the same operation |
| `EntitlementLog.OperationViolationUnreachable` | MediatorStorage.cs:3906-3907 | the unique index on result versions never stops an operation |
| `EntitlementLog.AppliedMeansNewer` | MediatorStorage.cs:585-613 | an applied update of either kind has a newer version and no lower limit; a refused one changes nothing |
| `EntitlementLog.CreateSubscriptionLogs` | MediatorStorage.cs:302-329 | creating a subscription logs its first entitlement coherently |
| `Canonical.EntitlementPayloadInjective` | MediatorStorage.cs:4666-4685 | equal entitlement payloads have equal fields, even when the operation type contains newlines |
| `Transfers.TransferRate` | MediatorStorage.cs:1443-1482 | along every replacement chain of a reachable table the counter is the number of transfers, and any two of them are as many cooldowns apart as there are transfers between them |
| `Transfers.ChainsDoNotFork` | MediatorStorage.cs:1126-1178 | no two rows replace the same personal link |
| `Forks.ForksExactly` | MediatorStorage.cs:1443-1482 | over runs, of either channel: no row is replaced twice if and only if no regeneration or transfer of a device that has been replaced finds its guard met: entitlement in force, device unrevoked, a slot left, an unused public id and, for a transfer, an unused operation id and no cooldown |
| `Forks.ReplacesExactly` | MediatorStorage.cs:1068-1620 | a regeneration or transfer adds the replacement of the device it names if and only if that guard is met |
| `Forks.DoublyReplacedWasEnabled` | UnifiedSubscriptionFeed.cs:694-724 | in every state reachable from the empty database a device replaced twice is one of the feed, was enabled between the two replacements, and has no transfer time, so that no cooldown ever holds it |
| `Forks.WithoutEnablingNoForks` | UnifiedSubscriptionFeed.cs:694-724 | which cannot happen in a run that enables no replaced device |
| `Forks.FeedDeviceForks` | MediatorStorage.cs:1443-1482 | a run in which a device of the feed is transferred, enabled and transferred again, two instants apart under a cooldown of a thousand |
| `Transfers.ChainCounts` | MediatorStorage.cs:1536-1549 | the timestamp and counter of a row are those of its chain |
| `Transfers.RunChains` | MediatorStorage.cs:1536-1564 | chains stay chains over every run |
| `Repository.MediatorRepository.CreateMediatedSubscription` | MediatorStorage.cs:253-360 | the statements compute the transaction: new subscription, first entitlement and log row, or nothing; like every method of the class it keeps the indexes, the erasure of credentials, the coherent log and the bound |
| `Repository.MediatorRepository.ApplyEntitlementOperation` | MediatorStorage.cs:362-500 | replay, conflict and limit checks in order, then mirror and log row together |
| `Repository.MediatorRepository.ApplyEntitlement` | MediatorStorage.cs:538-622 | the unlogged update |
| `Repository.MediatorRepository.CreateDeviceToken` | MediatorStorage.cs:635-989 | refusals, expiry, then replay or issue; a violated index undoes the expiry as well |
| `Repository.MediatorRepository.IssueDeviceToken` | MediatorStorage.cs:699-936 | the part after the expiry of stale reservations, and exactly when it violates an index |
| `Repository.MediatorRepository.ReplayHeld` | MediatorStorage.cs:757-839 | a request for a held key |
| `Repository.MediatorRepository.IssueUnheld` | MediatorStorage.cs:841-935 | a request for a new key: adopt a legacy row or insert one |
| `Repository.MediatorRepository.RegenerateDeviceToken` | MediatorStorage.cs:1068-1279 | a limit reached after the old row was revoked undoes the revocation |
| `Repository.MediatorRepository.RetireRow` | MediatorStorage.cs:1180-1206 | the three statements that retire a row |
| `Repository.MediatorRepository.TransferDeviceToken` | MediatorStorage.cs:1281-1620 | replay of a recorded operation, refusals, then the write half |
| `Repository.MediatorRepository.TransferUnrevoked` | MediatorStorage.cs:1484-1590 | the write half, recorded with its operation or undone |
| `Repository.MediatorRepository.RevokeDeviceToken` | MediatorStorage.cs:1697-1747 | revoke once, erase, disable |
| `Repository.MediatorRepository.RevokeAllDeviceTokens` | MediatorStorage.cs:1749-1802 | the same for every unrevoked row, counted |
| `Repository.MediatorRepository.GetDeviceCredential` | MediatorStorage.cs:991-1055 | the unlocked read |
| `Repository.MediatorRepository.ReadRepairDeviceCredential` | MediatorStorage.cs:5072-5135 | the compare-and-set on all four columns |
| `Repository.MediatorRepository.ValidateDeviceTokenAccess` | MediatorStorage.cs:1804-2108 | the checks in order and the row left behind |
| `Repository.MediatorRepository.RecordAccess` | MediatorStorage.cs:1941-2095 | backfill, risk, binding and use as separate updates equal one new row, and exactly when they violate an index |
| `Repository.MediatorRepository.ResolveUnifiedFeedDevice` | UnifiedSubscriptionFeed.cs:215-536 | refusals, then a known or a new device |
| `Repository.MediatorRepository.ResolveKnownDevice` | UnifiedSubscriptionFeed.cs:333-399 | disabled, lapsed and live rows |
| `Repository.MediatorRepository.ReserveNewDevice` | UnifiedSubscriptionFeed.cs:401-535 | a HWID without a row: counted, then inserted or refused |
| `Repository.MediatorRepository.MarkUnifiedDeviceActivated` | UnifiedSubscriptionFeed.cs:538-575 | the whole new state, and that it is within every limit if and only if the activation was harmless |
| `Repository.MediatorRepository.MarkUnifiedDeviceProvisioningFailed` | UnifiedSubscriptionFeed.cs:577-619 | the whole new state |
| `Repository.MediatorRepository.EnableUnifiedDevice` | UnifiedSubscriptionFeed.cs:621-746 | the checks in order and the re-reserved row |
| `Repository.MediatorRepository.Insert` | MediatorStorage.cs:5137-5220 | an insert succeeds if and only if the indexes still hold |
| `Repository.MediatorRepository.Update` | MediatorStorage.cs:5743-5866 | so does an update of indexed columns |
| `NaturalOrder.NaturalOrderExactly` | MediatorStorage.cs:7253-7295 | names whose digit runs stay below a bound are totally ordered by the comparer if and only if the bound is at most 2^63 |
| `NaturalOrder.NaturalCycle` | MediatorStorage.cs:7271-7293 | 93 < 100 < 9223372036854775808 < 93 |
| `NaturalOrder.SampleCulture` | MediatorStorage.cs:7280-7285 | a collation with the assumed properties exists |
| `NaturalOrder.Compare` | MediatorStorage.cs:7253-7295 | the normalisation of both names and the loop over their parts compute the order, with the last tie broken on the names as they are |
| `NaturalOrder.PartTransitive` | MediatorStorage.cs:7271-7293 | on digit runs that fit 64 bits and words that collate to one side of them, comparing parts is a total preorder |
| `Presentation.BuildOrderExactly` | MediatorStorage.cs:7040-7050 | the order in which links are read never matters to what is published, whatever the cap, if and only if no three of its representatives compare in a circle; the only-if half is of the modelled sort |
| `Presentation.CirclePublishesTwoOrders` | MediatorStorage.cs:7040-7050 | three links named in a circle, of which two readings give different lists under the modelled sort |
| `Presentation.OrderDetermined` | MediatorStorage.cs:7040-7050 | whichever way a sort arranges the representatives so that each precedes the next, it has no choice if and only if no three compare in a circle |
| `Presentation.BuildIgnoresOrder` | MediatorStorage.cs:7040-7050 | without a circle what is published depends only on the set of links |
| `Presentation.DeduplicateElements` | MediatorStorage.cs:7032-7038 | deduplication keeps exactly the ordinally least link of each identity |
| `Presentation.DeduplicateDistinct` | MediatorStorage.cs:7032-7038 | and no identity twice |
| `Presentation.PresentationOrder` | MediatorStorage.cs:7042-7048 | where names are in the domain of the natural order the sort key is a strict total order on the representatives, so nothing compares in a circle |
| `Presentation.BuildKeepsFirst` | MediatorStorage.cs:7040-7050 | without a circle the cap keeps the first representatives: every one cut comes after every one kept |
| `Presentation.DeduplicateTwice` | MediatorStorage.cs:2499-2568 | deduplicating a deduplicated list leaves it as it is, order included |
| `Fingerprint.ContentMeansIdentities` | MediatorStorage.cs:6904-6911 | two catalogues have the same content text if and only if they offer the same identities |
| `PublishedCatalogues.PublishedIsRecomputed` | MediatorStorage.cs:2451-2579 | over every interleaving of refreshes, source tests, aborts and rollbacks, every published row equals, link for link, the catalogue rebuilt from the snapshots its own version map names, read in some order of its sources |
| `PublishedCatalogues.RecomputedInAnyOrder` | MediatorStorage.cs:2451-2579 | and in every order, if no three representatives compare in a circle |
| `PublishedCatalogues.ServedLinksAreRecent` | MediatorStorage.cs:2798-2821 | every link served at a time was read no earlier than the maximum staleness before it |
| `PublishedCatalogues.RunSound` | MediatorStorage.cs:2823-2879 | every published row is honest about the age of its data, also when a rollback comes between a refresh's look and its publication |
| `PublishedCatalogues.RefreshKeepsBaseline` | MediatorStorage.cs:2517-2575 | in every reachable refresh: a rejected or failed one republishes the observed catalogue and leaves its baseline, an accepted one keeps a fifth of ten or more identities |
| `PublishedCatalogues.ReadGathers` | MediatorStorage.cs:2453-2496 | what is merged is the links of the versions recorded, source by source, and their ages are all recorded |
| `PublishedCatalogues.GatheredRecomputes` | MediatorStorage.cs:2453-2568 | what has been merged, deduplicated before it is built, publishes what the recorded snapshots do in the order of reading |
| `PublishedCatalogues.DecideHonest` | MediatorStorage.cs:2561-2575 | the data of a published row is as old as the oldest snapshot that went into it |
| `Publisher.GuardMeansFifth` | MediatorStorage.cs:7300-7316 | the guard rejects if and only if fewer than one in five of at least ten previous identities remain |
| `Publisher.FifthRoundedUp` | MediatorStorage.cs:7315-7315 | rounding the fifth up is comparing five times the count |
| `CatalogStore.CatalogRepository.RefreshCatalog` | MediatorStorage.cs:2430-2585 | an uninterrupted refresh is the run of its own steps and publishes one row |
| `CatalogStore.CatalogRepository.GatherSources` | MediatorStorage.cs:2448-2496 | the loop over the sources |
| `CatalogStore.CatalogRepository.RollbackPublishedSnapshot` | MediatorStorage.cs:2823-2885 | the last but one row is published again |
| `CatalogStore.CatalogRepository.GetEffectivePublishedSnapshot` | MediatorStorage.cs:2798-2821 | the catalogue served, if any |
| `CatalogStore.CatalogRepository.PersistSourceSnapshot` | MediatorStorage.cs:6060-6093 | the next version of a source |
| `BroadcastRuns.ExactlyOnce` | VpnAccessBot/vpn_access_bot/broadcast.py:371-527 | over any mix of repeated, overlapping and crashed confirmations: at most one outbox row per recipient and nobody else, new rows over all calls add up to the outbox, whatever comes between a call's reading of the campaign and its writing, no call finds the queue incomplete, and once a call has finished or the campaign is queued everyone has been reached with matching counts |
| `BroadcastRuns.ConfirmedStaysExactly` | VpnAccessBot/vpn_access_bot/broadcast.py:393-413 | a confirmed campaign stays confirmed over a run, and a queued one queued, if and only if no call that read it as awaiting confirmation past its deadline goes on to write the expiry |
| `BroadcastRuns.StaleExpiryOverwrites` | VpnAccessBot/vpn_access_bot/broadcast.py:393-413 | a run in which such a call turns a queued campaign with a full outbox into an expired one |
| `BroadcastRuns.CompletableExactly` | VpnAccessBot/vpn_access_bot/broadcast.py:371-527 | a campaign can still be queued, by some continuation from any time on, if and only if it is awaiting confirmation, enqueueing or queued, or some call goes on: one that read it in time or as enqueueing, or is enqueueing, counting or closing it; otherwise its outbox never changes again |
| `BroadcastRuns.StaleExpiryStrands` | VpnAccessBot/vpn_access_bot/broadcast.py:393-413 | a run in which the enqueueing call crashes before the expiry is written, after which nothing fills the outbox |
| `BroadcastRuns.CallProgresses` | VpnAccessBot/vpn_access_bot/broadcast.py:455-527 | every step of a call, in whatever state the others left, brings it closer to its end, where it is refused for what it read or everyone is in the outbox |
| `BroadcastRuns.BatchCovers` | VpnAccessBot/vpn_access_bot/broadcast.py:459-475 | a keyset batch skips nobody |
| `Broadcast.CollectTargets` | VpnAccessBot/vpn_access_bot/broadcast.py:272-316 | the batched scan collects exactly the matching users up to the bound, counts them, and terminates while users register |
| `Broadcast.Campaign.Prepare` | VpnAccessBot/vpn_access_bot/broadcast.py:318-337 | the campaign awaits confirmation of exactly those recipients, or is empty |
| `Broadcast.Campaign.ConfirmAndEnqueue` | VpnAccessBot/vpn_access_bot/broadcast.py:371-527 | one uninterrupted confirmation from every state |
| `Broadcast.Campaign.EnqueueRecipients` | VpnAccessBot/vpn_access_bot/broadcast.py:455-482 | the batches add exactly the missing recipients |
| `Capacity.HealthyRate` | VpnAccessBot/vpn_access_bot/advertising_readiness.py:401-415 | with a subscription capacity configured, ties or not, any window of length T holds at most T / dwell + 1 healthy records |
| `Capacity.SlipFreeRate` | VpnAccessBot/vpn_access_bot/advertising_readiness.py:401-415 | so does any run in which no capture may slip |
| `Capacity.RecoveriesExactly` | VpnAccessBot/vpn_access_bot/advertising_readiness.py:396-444 | whatever the database picks among records of one time, every healthy record but the first waits the dwell after every record before it and is under the recovery ratio, if and only if no capture may slip: be healthy too soon, or over the ratio, when an unknown record is among the latest |
| `Capacity.JudgedNeverSlips` | VpnAccessBot/vpn_access_bot/advertising_readiness.py:293-395 | no capture may where every reading has a ratio or exceeds a limit |
| `Capacity.RunChains` | VpnAccessBot/vpn_access_bot/advertising_readiness.py:396-444 | whatever the database picks among records of one time, records differ, chain by previous state, and recover only after the dwell and under the recovery ratio, if and only if no capture meets an ambiguous tie: a record of the latest time that is not the last one's state and that the reading, judged against it, would change |
| `Capacity.RecordChains` | VpnAccessBot/vpn_access_bot/advertising_readiness.py:396-444 | the same of one capture |
| `Capacity.DistinguishedNeverAmbiguous` | VpnAccessBot/vpn_access_bot/advertising_readiness.py:396-401 | captures of distinct times never meet one |
| `Capacity.TiedRecordsMisread` | VpnAccessBot/vpn_access_bot/advertising_readiness.py:396-401 | a run with two records of one time that breaks the chain |
| `Capacity.UnknownSkipsDwell` | VpnAccessBot/vpn_access_bot/advertising_readiness.py:363-365 | without a ratio the state is unknown, which is not held, so strain can end in health at once |
| `Capacity.CapacityService.Capture` | VpnAccessBot/vpn_access_bot/advertising_readiness.py:293-446 | the state judged and the record appended |
| `Capacity.CapacityService.AssessReading` | VpnAccessBot/vpn_access_bot/advertising_readiness.py:355-395 | the later limit overrides the earlier |
| `CommercePolicy.ConfirmedMeansUntouched` | VpnAccessBot/vpn_access_bot/advertising_readiness.py:245-287 | after any run since its preview a change is confirmed if and only if its own administrator confirms it, it is pending and unexpired, and the policy is the one previewed with no override to release; the switch is then what was asked for, the others are as they were, and the version is one more |
| `CommercePolicy.ConfirmedOnce` | VpnAccessBot/vpn_access_bot/advertising_readiness.py:245-287 | and at most once |
| `CommercePolicy.ReachableSettlesOnce` | VpnAccessBot/vpn_access_bot/advertising_readiness.py:206-234 | the same from any policy, with or without an override in force, and no requests |
| `CommercePolicy.RunKeeps` | VpnAccessBot/vpn_access_bot/advertising_readiness.py:206-234 | no two confirmed requests expected the same version, at most one request per administrator and switch is pending, and a settled request stays settled |
| `CommercePolicy.CommercePolicyRepository.GetPolicy` | VpnAccessBot/vpn_access_bot/advertising_readiness.py:119-146 | the first policy and the release of an ended override |
| `CommercePolicy.CommercePolicyRepository.SetPolicySwitch` | VpnAccessBot/vpn_access_bot/advertising_readiness.py:155-193 | compare-and-set on the version |
| `CommercePolicy.CommercePolicyRepository.PrepareSwitchChange` | VpnAccessBot/vpn_access_bot/advertising_readiness.py:195-240 | supersede, then record the preview |
| `CommercePolicy.CommercePolicyRepository.ConfirmSwitchChange` | VpnAccessBot/vpn_access_bot/advertising_readiness.py:245-287 | every outcome of a confirmation |
| `SubscriptionCodec.CodecRoundTrip` | Program.cs:3240-3273 | a list of links survives encoding and decoding if and only if every link is non-empty, trimmed and free of line ends |
| `SubscriptionCodec.VariantsDecodeAlike` | Program.cs:3242-3258 | URL-safe, unpadded and wrapped variants decode as the original does |
| `Base64.RoundTrip` | Program.cs:3260-3272 | decoding inverts section 4 of RFC 4648 |
| `Base64.UrlRoundTrip` | VpnAccessBot/vpn_access_bot/checkout_tokens.py:90-96 | and the unpadded alphabet of section 5, which contains no dot, under the library's lenient decoding |
| `Base64.ScanRoundTrip` | VpnAccessBot/vpn_access_bot/checkout_tokens.py:94-96 | the lenient scan, which discards characters outside the alphabet, inverts encoding |
| `Base64.PadRestores` | Program.cs:3250-3258 | padding restores whatever part of it was dropped |
| `Base64.Utf8RoundTrip` | Program.cs:3261-3270 | decoding inverts UTF-8 |
| `CheckoutTokens.IssuedVerifies` | VpnAccessBot/vpn_access_bot/checkout_tokens.py:31-88 | whatever can be issued verifies to its own claims if and only if it has not expired and its amount is absent or positive; expiry is reported first |
| `CheckoutTokens.VerifiedIsSigned` | VpnAccessBot/vpn_access_bot/checkout_tokens.py:56-88 | a token that verifies carries the MAC of its payload |
| `Cidr.Contains` | MediatorStorage.cs:6745-6770 | true if and only if both addresses agree after integer division by two to the number of host bits (section 3.1 of RFC 4632) |
| `Cidr.MaskedEqual` | MediatorStorage.cs:6768-6769 | the shifted mask compares exactly the high bits |
| `Cidr.DivisionAgrees` | MediatorStorage.cs:6752-6769 | whole bytes and high bits decide the quotient |
| `FeedAdmission.KnownAdmitted` | UnifiedSubscriptionFeed.cs:333-399 | a known HWID is served if and only if the subscription is entitled and its secret right, its row is neither revoked nor disabled, and it holds its slot or finds one free; the row is left with the hash under the current key, its activation, and new deadlines only after a lapse |
| `FeedAdmission.NewAdmitted` | UnifiedSubscriptionFeed.cs:401-535 | an unknown HWID is served if and only if a slot is free, and leaves a pending row bound to it |
| `FeedAdmission.LookupGoesBy` | UnifiedSubscriptionFeed.cs:748-788 | the lookup finds the row with the hash under the current key or, if there is none, under the previous one |
| `FeedAdmission.ResolveRefusals` | UnifiedSubscriptionFeed.cs:215-422 | every reason given for a refusal is true |
| `FeedAdmission.ActivationEffect` | UnifiedSubscriptionFeed.cs:538-575 | an unrevoked row of the feed is active from the first activation on and then holds its slot for good; nothing else changes |
| `FeedAdmission.FailureEffect` | UnifiedSubscriptionFeed.cs:577-619 | a failure sets the state and only the deadlines that are missing |
| `FeedAdmission.EnabledExactly` | UnifiedSubscriptionFeed.cs:621-746 | a revoked device of the feed is enabled if and only if the subscription is entitled and has a slot free; the row it becomes, and the reason otherwise |
| `FeedAdmission.EnabledIsAdmitted` | UnifiedSubscriptionFeed.cs:694-724 | enabling undoes disabling: until the new reservation runs out the HWID is served |
| `LinkAccess.PassesExactly` | DeviceFeedAccessPolicy.cs:205-395 | under full enforcement an access passes if and only if the link admits it, version by version, and otherwise always |
| `LinkAccess.OpenedExactly` | MediatorStorage.cs:1883-2095 | a personal link is opened if and only if secret, entitlement, deadline, limit and policy allow it; it is then active, bound to the HWID or platform, its hash under the current key, with a stored credential, and nothing else changes |
| `LinkAccess.AccessTouches` | MediatorStorage.cs:1883-2095 | an access touches no other row and no other table |
| `LinkAccess.AccessLeaves` | MediatorStorage.cs:1883-2095 | of a device of either channel: what a permitted access and one that the policy refuses leave of the row, and that any other leaves it alone |
| `LinkAccess.FirstAccessOwns` | DeviceFeedAccessPolicy.cs:361-367 | the first access that enforcement permits stores its HWID, and over every run no access with another is permitted |
| `LinkAccess.FirstPlatformOwns` | DeviceFeedAccessPolicy.cs:254-302 | so does the first platform with a version-1 link |
| `LinkAccess.LateAccessExpires` | MediatorStorage.cs:1895-1906 | an access after the deadline of an unused link revokes it as expired and erases it |
| `LinkAccess.AccessRefusals` | MediatorStorage.cs:1804-1964 | every reason given for a refused access is true |
| `Revocations.RevokedExactly` | MediatorStorage.cs:1697-1747 | a revocation answers true if and only if the subscription has a row of that public id |
| `Revocations.RevocationEffect` | MediatorStorage.cs:1710-1726 | that row, of either channel, is revoked, now unless it was before, stores no credential, is disabled if of the feed, and nothing else changes |
| `Revocations.RevokedLinkNeverOpens` | MediatorStorage.cs:1697-1747 | after it, over every run, no access to the link is permitted and its credential is not read |
| `Revocations.ResetEffect` | MediatorStorage.cs:1749-1802 | a reset does the same to every unrevoked row of the subscription, counts them, and touches no other |
| `Revocations.ReadExactly` | MediatorStorage.cs:991-1055 | a credential is read if and only if it is complete, readable, under a configured key and of an unrevoked device; the reason otherwise |
| `Revocations.RepairExactly` | MediatorStorage.cs:5072-5135 | a repair replaces four columns if and only if they are those that were read |
| `IssuedLinks.CreatedRow` | MediatorStorage.cs:869-935 | a request that creates adds one pending link with the drawn secret, sweeps stale reservations and changes nothing else |
| `IssuedLinks.CreatedLinkOpens` | MediatorStorage.cs:869-935 | until its deadline the new secret opens it if and only if the subscription is entitled and the policy admits the access |
| `IssuedLinks.ReplayAnswersExactly` | MediatorStorage.cs:757-839 | a replay is answered with its device if and only if that is unrevoked and its credential can be read back; the reason otherwise |
| `IssuedLinks.AdoptsExactly` | MediatorStorage.cs:841-905 | adopting gives the row the key and the request, and answers with it |
| `IssuedLinks.LegacyChoice` | MediatorStorage.cs:4937-4973 | of the rows that may be adopted, the newest of those with a stored credential, if there are any |
| `IssuedLinks.OpenedWhenEntitled` | MediatorStorage.cs:635-699 | a request is looked at if and only if its arguments are good and its subscription entitled |
| `IssuedLinks.ReissueRefusedExactly` | MediatorStorage.cs:1090-1130 | why an entitlement refuses a replacement |
| `IssuedLinks.UnadmittedRefusals` | MediatorStorage.cs:635-755 | a request that is not admitted is told the first thing that is wrong |
| `IssuedLinks.RegeneratedRowExactly` | MediatorStorage.cs:1180-1246 | a regeneration replaces the row by one with the same owner, platform, key and history and a new secret; the old one is revoked and erased |
| `IssuedLinks.TransferredRowExactly` | MediatorStorage.cs:1484-1590 | a transfer replaces it by an unowned one for the new platform and is recorded |
| `IssuedLinks.RegeneratedLinkOpens` | MediatorStorage.cs:1180-1246 | the new secret opens a regenerated link for its owner |
| `IssuedLinks.TransferredLinkOpens` | MediatorStorage.cs:1484-1590 | and a transferred one for whoever presents the new platform first |
| `IssuedLinks.WithdrawnSecretNeverOpens` | MediatorStorage.cs:1068-1620 | the old secret of either opens it in no later state |
| `IssuedLinks.ReplaceableExactly` | MediatorStorage.cs:1068-1206 | a row can be replaced if and only if it is unrevoked, the subscription entitled, and a slot left by the others |
| `IssuedLinks.TransferableExactly` | MediatorStorage.cs:1443-1482 | and transferred if and only if, besides, the operation id is new and the cooldown has passed |
| `TransferLog.TransferTakesEffectOnce` | MediatorStorage.cs:1330-1440 | over every run a transfer's operation id changes nothing again: it is answered with the device it made, or refused as a reuse for another device or platform |
| `EntitlementUpdates.OperationAppliedExactly` | MediatorStorage.cs:362-500 | a new operation is applied if and only if it expects the version in force and the limit neither shrinks nor falls below the active devices; it becomes the entitlement and a log row |
| `EntitlementUpdates.OperationRefusals` | MediatorStorage.cs:362-500 | what a refused operation is told is true |
| `EntitlementUpdates.PutAppliedExactly` | MediatorStorage.cs:538-622 | an unlogged update is applied if and only if it is proper, newer or the first, and the limit holds |
| `EntitlementUpdates.CreatedExactly` | MediatorStorage.cs:253-360 | a subscription is created if and only if its entitlement is proper and its ids are new |
| `Refreshing.RefreshGathers` | MediatorStorage.cs:2448-2496 | over one refresh a source is used if and only if it was read, or its read failed and its newest snapshot is recent enough, and in that version |
| `Refreshing.AcceptedExactly` | MediatorStorage.cs:2448-2579 | an accepted row names exactly those sources and versions, and is fresh if and only if, of snapshots taken before the refresh, it used none |
| `Refreshing.DecidedExactly` | MediatorStorage.cs:2499-2575 | which of the four outcomes a refresh has, exactly, and the row each publishes |
| `Refreshing.ServedExactly` | MediatorStorage.cs:2798-2821 | a catalogue is served if and only if the newest row is available, has links and is recent enough |
| `Refreshing.AcceptedIsServed` | MediatorStorage.cs:2561-2821 | what an accepted refresh publishes is served until its data is too old |
| `Refreshing.RollbackAlternates` | MediatorStorage.cs:2823-2885 | a rollback brings the catalogue before the newest to the front and keeps all history; a second one brings the newest back |
| `Presentation.PublishedInOrder` | MediatorStorage.cs:7040-7050 | each published link comes before the next by kind of connection, name, protocol and identity, and without a circle before all later ones |
| `NaturalOrder.NaturalDecides` | MediatorStorage.cs:7253-7295 | the first parts that differ decide, then the number of parts, then the names as they are |
| `NaturalOrder.PartsByValue` | MediatorStorage.cs:7271-7293 | two parts that read as 64-bit numbers compare by value, others by collation |
| `CommercePolicy.SetExactly` | VpnAccessBot/vpn_access_bot/advertising_readiness.py:155-193 | a switch is set, to what it was asked to be, if and only if it exists and no other version was expected; the other switches and the end of an override are kept |
| `CommercePolicy.CurrentExactly` | VpnAccessBot/vpn_access_bot/advertising_readiness.py:119-146 | the policy in force: the first one before any, and one whose override has ended without it |
| `CommercePolicy.PreparedExactly` | VpnAccessBot/vpn_access_bot/advertising_readiness.py:195-240 | a preview names the version in force, lasts at least half a minute and cancels those it replaces |
| `CommercePolicy.ConfirmRefusals` | VpnAccessBot/vpn_access_bot/advertising_readiness.py:245-287 | what every confirmation, refused or not, does to the request and the policy |
| `Capacity.RecoversExactly` | VpnAccessBot/vpn_access_bot/advertising_readiness.py:396-444 | strain is left for health if and only if the reading is healthy, the dwell has passed and utilisation is under the recovery ratio |
| `Capacity.RecordedExactly` | VpnAccessBot/vpn_access_bot/advertising_readiness.py:396-444 | from any other state a reading is recorded as it is, if it is a change |
| `Capacity.AssessedExactly` | VpnAccessBot/vpn_access_bot/advertising_readiness.py:355-395 | the state a reading has by itself, in terms of limits and utilisation |
| `Capacity.UtilizationExactly` | VpnAccessBot/vpn_access_bot/advertising_readiness.py:345-360 | utilisation is the highest configured ratio |
| `Base64.KnownEncodings` | Program.cs:3260-3272 | vectors of section 10 of RFC 4648 |
| `Base64.KnownUtf8` | Program.cs:3261-3270 | one character of each length |
| `CheckoutTokens.IssuedExactly` | VpnAccessBot/vpn_access_bot/checkout_tokens.py:31-54 | claims can be issued if and only if they name a quote and an expiry |

## Left out

- SQLite, connections, cancellation and asynchrony: a write-locked transaction is atomic, a violated unique index undoes it, and a transaction that fails for another reason is one that did not happen.
- Migrations and the import of legacy data: runs start from the empty post-migration database.
- HMAC, SHA-256 and AES-GCM: keyed hashes are injective, fingerprints are represented by the text that is hashed, and a stored credential is unreadable if the configuration says so.
- Random secrets, public ids and confirmation tokens are inputs; a repeated public id is modelled as the index violation it causes.
- The secret of the unified feed is verified by a parameter, and so is the network risk score: an access either does or does not raise its row to review.
- Device models, operating systems and applications, audit rows, observation rows and last-seen timestamps: no operation of the model decides from them. Display names are modelled, since a legacy row is adopted by its name.
- `DeviceTable.Device` carries the origin of a row, which the table does not store; no operation reads it. It exists so that replacement chains can be stated.
- The identifier of the operation that logs a subscription's creation is modelled with the subscription's textual form rather than its digits alone; both are injective.
- Instants are integers. Their textual form in fingerprints is some injective rendering without line ends.
- Unicode normalisation is a parameter of the natural order; all that is assumed of it is that it leaves runs of ASCII digits alone.
- Characters are Unicode scalar values. The program compares UTF-16 units, which orders supplementary characters differently; the results hold for either order, since both are strict and total.
- Digits beyond ASCII that a digit run may contain do not parse as numbers and are outside the domain of `NaturalOrder.TotalBelowLong`.
- Collation is a real-valued sort key; that words collate to one side of all digit runs, and that digits collate by their first digit, are assumptions on the culture, which `NaturalOrder.SampleCulture` shows can be met.
- How identity, display name, connection priority and protocol are parsed from a link is a parameter.
- The anomaly guard multiplies by 0.2 in floating point; for counts of links the rounded product has the same ceiling as the exact fifth, which is what is modelled.
- The cap on published servers and the maximum staleness are fixed over a run.
- `Presentation.BuildOrderExactly`: its only-if half speaks of the stable insertion that models the library's sort, because the library leaves its result open where names compare in a circle.
- `Presentation.CirclePublishesTwoOrders`: speaks of that insertion for the same reason.
- Source snapshots are inserted only after successful reads, so the filter on valid snapshots is not modelled.
- Capture times do not go back.
- Ratios of capacity are exact rather than floating point.
- The end of a policy override is set outside the repository: runs of the policy may start with one in force.
- The retention job's deletions, the delivery of queued messages and the parsing of broadcast commands.
- `BroadcastRuns.ExactlyOnce`: the bulk insert ignores rows that exist, as its idempotency key makes it do; rows are not deleted while a campaign is being confirmed.
- JSON in checkout tokens is any rendering that parses back.
- Malformed UTF-8 is replaced, but the number of replacement characters per malformed sequence is not that of the library.
- HTTP fetching, DNS, rate limiting, HTML, metrics and readiness bodies, source administration and the deployment scripts.
