# LNVPS verification

A Dafny model of the LNVPS virtual-server platform, with proofs about its billing worker, its
address allocator, its capacity limits and two small text and money helpers. Verify everything with
`dafny verify dfyconfig.toml`.

The model follows the in-memory database and the worker where they change tables in place (classes
`MockDb`, `Worker`, `Table`, `AssignmentTable`, `AppDb`), and gives every such method a specification
on table values. What the platform promises is then proved of those values, for all inputs and for all
runs.

## How the parts fit

* **Billing worker.** `Billing` holds the tables as one value and what settling, cancelling and
  purging do to it. `Lifecycle` is one turn of the subscription check. `WorkerSystem` puts them into
  one step system: a subscription check is a snapshot and one step per listed row, a VM check is a
  snapshot, one classification step per VM, and for each doomed VM a re-read of its subscription, a read
  of its payments and the purge. Settlements, new invoices and deposits seen on chain may fall between
  any two steps. Times are nanoseconds; the stored check time is cut to whole seconds, and every
  successive clock read inside one turn is its own value. `Run` is the state after any list of steps; a
  step that is not enabled changes nothing, so the theorems need no assumption about scheduling. The
  `Worker` methods return the run of this system they went through, in which no step is a disabled one.
* **Addresses.** `IpNetworks`, `IpPicker`, `IpRegions`, `IpAccounting`, `IpRuns`: networks as an
  address with a prefix, the pick from a range and from a region, the counters, and runs of picks and
  releases. Random draws are a parameter; the shuffle of ranges and row order are arbitrary.
* **Capacity.** `HostCapacities`, `CapacityLimits`, `CapacityAnswers`, `OrderLimits`, `Placement`,
  `AppClusters`.
* **Helpers.** `Shasum` (with `Text`), `Exchange`, `AltPrices`.

## What turned out false, and exactly when it holds

* *Paid time is never lost.* `check_subscriptions` cancels by writing back the row it listed earlier
  (`lnvps_api/src/worker.rs:370-372`). A settlement that lands in between is undone while its payment
  stays marked paid: `SettlementLostToStaleCancel`, with a run in `PaidTimeLost`. `TimeLostExactly` proves,
  for every run that keeps the subscription, from its first purchase on, that no time is ever made up and
  that some is lost if and only if such a stale cancellation took place.
* *A paid VM is never purged.* `check_vms` reads the subscription first and the payments second, so a
  settlement between that re-read and the purge defeats both guards. `PurgeableExactlyInWindow`: a set-up
  subscription can still be purged if and only if one of its VMs is past its re-read (a run in
  `PaidVmPurged`). That takes it that no row waits that was listed before the set-up. `PaidUpRun` shows
  that no run breaks this where active rows with an expiry are paid for; an administrator can create a row
  for which it fails, and then a stale cancellation leads to a purge outside the window
  (`PaidVmPurgedOutsideWindow`).
* *Expiring Soon and Expired go out once.* The stored check time has no sub-second digits. A check
  that ends in the same second as the expiry (or, for the warning, as the start of its last day) makes the
  next one send the notice again: `SoonSentTwice`, `ExpiredSentTwice`, `StraddlingWarnsAgain`,
  `StraddlingExpiresAgain`. Without such a check both go out at most once: `SoonAtMostOnce`,
  `ExpiredAtMostOnceWithoutVps`. For the warning a whole-second expiry is enough. With a VM the history row
  is the marker and the promise holds on every clock: `ExpiredAtMostOnce`, `ExpiredExactlyOnce`.
* *Expired is sent to a VPS subscription once even if its VM is gone.* The lookup skips soft-deleted rows,
  so after the VM was deleted every landing check sends it: `ExpiredRepeatsWithoutVm`,
  `ExpiredRepeatsAfterDelete`.
* *A due notice is sent.* A check that looks at a subscription before the moment and ends after it
  loses the notice for good: `SlowCheckLosesExpiry`, `SlowCheckLosesWarning`, with runs in
  `ExpiredNeverSent` and `WarningNeverSent`; `WarningInWindow` and `LandingWithoutVps` say exactly when a
  check sends it.
* *The deletion date shown only moves later.* Only if `delete_after` is at least 14:
  `ShownDateNeverMovesCloser`; a passed deadline can reopen (`PassedDeadlineCanReopen`),
  if and only if a later age tier begins within its own grace (`ReopensExactly`).
* *A pick fails only when the range is full.* Stored addresses outside the range count too:
  `StraysRefuse`, with the exact condition in `RefusedExactlyWhenMarked`. The kind argument of the region
  pick does not narrow anything: `KindNeverNarrows`.
* *What is advertised can be ordered.* A host of unknown maker or architecture passes the limits but
  rejects the order. At minimum CPU and memory a size is accepted if and only if a serving host that stores
  it is named (`AdvertisedOrderAccepted`); everything between the minima and the advertised maxima is
  accepted if and only if one serving, named host has the three maxima free together
  (`BoxAcceptedExactly`). `UnnamedHostAdvertises` and `SplitMaximaAdvertised` are price lists for which it
  fails.
* *A cluster is never overcommitted.* True of every run in which selecting and storing an order are one
  step (`NeverOvercommitted`); the source does them apart, and `LatePlacementKeepsCapacity` and
  `TwoOrdersAtOnce` say exactly when a late store overcommits.
* *A VM check purges every never-paid VM.* It purges every never-paid subscription (`CheckPurgesUnpaid`),
  but only one VM of each: the purge takes the line items of the others along (`SiblingIsOrphaned`), and no
  later run finds those again (`OrphanNeverPurged`). With one VM per subscription the VM is gone too.
* *The in-memory history keeps its rows.* It numbers a row by the table size plus one, so a purge can
  make later rows overwrite others: `PurgeCostsAnotherMark`, `TableStuck`; exact condition in
  `InsertKeepsEntries` and `PurgeKeepsDense`. The worker model keeps history as a set of rows, as the SQL
  table with its own ids does.
* *Fiat to Bitcoin and back is exact.* Up to a rate of a billion: `FiatRoundTrip`, `LossyAboveBillion`.
* *A printed checksum line parses back.* A GNU name must not start with a star: `GnuNameRecovered`.
  The length of a BSD digest is not checked, even if it is empty: `BsdLengthUnchecked`.

## Model

| member | source | states |
|---|---|---|
| `Billing.Extended` | lnvps_api_common/src/mock.rs:2423-2437 | paid time never moves the base back; an explicit time value adds exactly that many seconds |
| `Billing.FindPayment` | lnvps_api_common/src/mock.rs:2403-2403 | the first stored payment with the id, or none has it |
| `InMemoryDb.MockDb.SubscriptionPaymentPaid` | lnvps_api_common/src/mock.rs:2399-2462 | the tables become `Settle` of the old ones: marked and credited once, VMs of the subscription revived |
| `InMemoryDb.MockDb.UndeleteVms` | lnvps_api_common/src/mock.rs:2446-2459 | every VM billed under the subscription is live again, all others unchanged |
| `InMemoryDb.MockDb.UpdateSubscription` | lnvps_api_common/src/mock.rs:2140-2150 | replaces the whole row, or fails and changes nothing when it is not stored |
| `InMemoryDb.MockDb.GetVmByLineItem` | lnvps_api_common/src/mock.rs:1234-1240 | a live VM of the line item, or there is none |
| `InMemoryDb.MockDb.HardDeleteVm` | lnvps_api_common/src/mock.rs:1166-1199 | the VM goes together with its history, subscription, line items and payments, and nothing else |
| `InMemoryDb.MockDb.PurgeIsBlocked` | lnvps_api_common/src/mock.rs:1269-1296 | true exactly when a payment of the VM's subscription blocks its purge now |
| `BackgroundWorker.Worker.ExpiryAlreadyHandled` | lnvps_api/src/worker.rs:462-495 | an Expired entry of a live VM at or after the expiry, or, without a VPS, an expiry before the stored check time |
| `BackgroundWorker.Worker.LogVmsExpired` | lnvps_api/src/subscription/vm.rs:202-235 | one Expired entry for each live VM of the subscription |
| `BackgroundWorker.Worker.Cancel` | lnvps_api/src/worker.rs:368-395 | writes the listed row back as inactive, notifies and deletes the VMs; does nothing when the subscription is gone |
| `BackgroundWorker.Worker.HandleSubscriptionState` | lnvps_api/src/worker.rs:289-431 | tables and notices become those of `Handle` for the clock reads it made |
| `BackgroundWorker.Worker.CheckSubscriptions` | lnvps_api/src/worker.rs:805-825 | left alone and not rate-limited, it goes through the start, a turn for every listed row and the finish of a check, each enabled in its turn |
| `BackgroundWorker.Worker.Classify` | lnvps_api/src/worker.rs:1082-1104 | the first pass takes one classification step per listed VM and notes down those it dooms |
| `BackgroundWorker.Worker.PurgeOne` | lnvps_api/src/worker.rs:1107-1165 | one deletion turn is re-read, payment read and purge, each only if the one before let it pass |
| `BackgroundWorker.Worker.CheckVms` | lnvps_api/src/worker.rs:1060-1176 | left alone and not rate-limited, it goes through the start, every classification and purge turn and the finish of a check, each enabled in its turn |
| `Deadlines.GraceTiers` | lnvps_api_common/src/model.rs:276-289 | the tiers as instants: 1, 2, 7, 14 days or delete_after, ages counted in whole days |
| `Deadlines.ShownDateNeverMovesCloser` | lnvps_api_common/src/model.rs:333-339 | the shown date never moves closer for any subscription if and only if delete_after is at least 14 |
| `Deadlines.PassedDeadlineCanReopen` | lnvps_api_common/src/model.rs:276-289 | a subscription past its deadline that is within grace again later |
| `Deadlines.ReopensExactly` | lnvps_api_common/src/model.rs:276-289 | a passed deadline is open again at some later instant if and only if it is at the start of a later age tier |
| `WorkerInvariants.ValidRun` | lnvps_api/src/worker.rs:805-825 | every run keeps the waiting rows distinct and active, recorded times in the past and the noted line items right |
| `WorkerInvariants.SecuredRun` | lnvps_api/src/worker.rs:1107-1136 | a set-up subscription outside its purge window stays so, with all its VMs, over every run |
| `WorkerInvariants.PaidUpRun` | lnvps_api/src/worker.rs:805-823 | every run keeps that each active row with an expiry is set up, stored or listed |
| `WorkerInvariants.NeverAheadStep` | lnvps_api/src/worker.rs:816-823 | every step keeps that a listed row of the subscription expires no later than the stored one |
| `Notices.CountStep` | lnvps_api/src/worker.rs:303-428 | a step adds a notice exactly when it takes the branch that sends it |
| `ExpiryRuns.ExpiredAtMostOnce` | lnvps_api/src/worker.rs:396-428 | over every run a subscription with a VM hears at most once that a given expiry passed |
| `ExpiryRuns.ExpiredExactlyOnce` | lnvps_api/src/worker.rs:396-428 | between settlements it hears exactly once if some check lands within grace, and never otherwise |
| `ExpiryRuns.SettlementRearms` | lnvps_api/src/worker.rs:455-486 | a settlement that adds time gives an expiry later than every Expired entry and never announced before; with no listed row waiting, every row of it expires then |
| `NoticeLimits.ExpiredRepeatsWithoutVm` | lnvps_api/src/worker.rs:471-490 | with a VPS line item but no live VM, one notice per landing check, until a settlement or a purge (with no VM row at all, over every run) |
| `NoticeLimits.SoonAtMostOnce` | lnvps_api/src/worker.rs:309-314 | one warning per expiry over every run, unless a check ends in the second its window reached it |
| `NoticeLimits.WholeSecondsNeverStraddle` | lnvps_api/src/worker.rs:277-283 | with a whole-second expiry that exception cannot occur |
| `NoticeLimits.StraddlingWarnsAgain` | lnvps_api/src/worker.rs:309-314 | after such a check every later look before the expiry warns again |
| `NoticeLimits.ExpiredAtMostOnceWithoutVps` | lnvps_api/src/worker.rs:491-494 | without a VPS, one Expired notice per value, unless a check ends in the second of the expiry |
| `NoticeLimits.WholeSecondClockNeverStraddles` | lnvps_api/src/worker.rs:277-283 | on a whole-second clock neither exception occurs |
| `NoticeLimits.StraddlingExpiresAgain` | lnvps_api/src/worker.rs:491-494 | after such a check the next landing check announces the expiry again |
| `NoticeLimits.WarningInWindow` | lnvps_api/src/worker.rs:309-314 | a check warns if and only if it finds the subscription in its last day and the previous check ended before that day |
| `NoticeLimits.LandingWithoutVps` | lnvps_api/src/worker.rs:407-410 | a landing check announces if and only if the previous check ended by the expiry |
| `NoticeLimits.ExpiryLogsExactly` | lnvps_api/src/subscription/vm.rs:202-235 | announcing an expiry adds one Expired entry per live VM of the subscription and changes nothing else |
| `NoticeLimits.RenewalDecidesWarning` | lnvps_api/src/worker.rs:316-366 | a warning says renewed if and only if the attempt succeeded; a failed or missing attempt gives the plain one |
| `NoticeLimits.RateLimitExactly` | lnvps_api/src/worker.rs:807-814 | a subscription check is skipped if and only if it starts within thirty seconds of the stored end of the last one |
| `NoticeLimits.VmRateLimitExactly` | lnvps_api/src/worker.rs:1063-1071 | the same for VM checks |
| `NoticeLimits.FinishRecordsTime` | lnvps_api/src/worker.rs:244-283 | only the end of a check moves its stored time, to that second |
| `NoticeLimits.SlowCheckLosesExpiry` | lnvps_api/src/worker.rs:816-823 | a check that ends after the expiry silences it for every later run |
| `NoticeLimits.SlowCheckLosesWarning` | lnvps_api/src/worker.rs:816-823 | a check that ends inside the last day silences the warning for every later run |
| `NoticeLimits.CancelledAtMostOnce` | lnvps_api/src/worker.rs:368-382 | between settlements a subscription is cancelled and told so at most once |
| `NoticeLimits.NeverCancelledEarly` | lnvps_api/src/worker.rs:368-382 | over every run no Cancelled notice is sent before its expiry plus min(1, delete_after) days |
| `NoticeLimits.OverdueRowIsCancelled` | lnvps_api/src/worker.rs:368-382 | a listed row past its expiry plus max(14, delete_after) days that no longer waits got its Cancelled notice, whatever steps came in between |
| `NoticeLimits.CheckCancelsOverdue` | lnvps_api/src/worker.rs:805-823 | every check that was started thirty seconds after the last or later and is over cancelled each active subscription past its expiry plus max(14, delete_after) days at the start and still stored |
| `NoticeLimits.CancelDeletesVms` | lnvps_api/src/subscription/vm.rs:237-273 | cancelling deletes exactly the live VMs of the subscription whose hosts do not fail, and touches no other VM |
| `NoticeLimits.SettlementUndoesCancel` | lnvps_api_common/src/mock.rs:2438-2459 | a settlement after a cancellation makes it active and brings back every VM that was live |
| `Counterexamples.SoonSentTwice` | lnvps_api/src/worker.rs:277-283 | a run with two warnings for one expiry |
| `Counterexamples.ExpiredSentTwice` | lnvps_api/src/worker.rs:277-283 | a run with two Expired notices for one whole-second expiry |
| `Counterexamples.ExpiredRepeatsAfterDelete` | lnvps_api/src/worker.rs:2141-2166 | a set-up VPS subscription with a soft-deleted VM that is told twice |
| `Counterexamples.ExpiredNeverSent` | lnvps_api/src/worker.rs:816-823 | a run after which no continuation ever announces the expiry |
| `Counterexamples.WarningNeverSent` | lnvps_api/src/worker.rs:816-823 | a run after which no continuation ever sends the warning |
| `Counterexamples.PaidTimeLost` | lnvps_api/src/worker.rs:369-372 | a run in which a thousand paid seconds are undone while the payment stays paid |
| `Counterexamples.PaidVmPurged` | lnvps_api/src/worker.rs:1111-1157 | a run in which a subscription is set up and then purged |
| `Counterexamples.PaidVmPurgedOutsideWindow` | lnvps_api_admin/src/admin/model.rs:3102-3116 | from an active row that was never set up: set up outside every window, un-set by a stale cancellation, purged |
| `PaidTime.ExpiryMoves` | lnvps_api/src/worker.rs:368-372 | a first settlement sets the expiry to its instant plus credit; after that it moves only by lapse plus credit, or back to the listed row at a stale cancellation |
| `PaidTime.PaidTimeConserved` | lnvps_api_common/src/mock.rs:2416-2441 | over every run that keeps the subscription and has no stale cancellation: the expiry is its start, or its first settlement, plus credits plus lapses |
| `PaidTime.TimeLostExactly` | lnvps_api/src/worker.rs:368-372 | over every run that keeps the subscription the expiry is at most that, and equal if and only if no cancellation was stale |
| `PaidTime.EveryPaymentCreditedOnce` | lnvps_api_common/src/mock.rs:2399-2441 | those credits are exactly what the payments that became paid bought, their time value or else an interval of a subscription billed by the day, whatever the order or repetition of deliveries; again if and only if no cancellation was stale |
| `PaidTime.DeliveriesEndAt` | lnvps_api_common/src/mock.rs:2400-2413 | after deliveries, first purchases included, the expiry depends only on the set of ids delivered and the lapses |
| `PaidTime.IntervalIsAdded` | lnvps_api_common/src/mock.rs:2417-2438 | a payment without a time value moves the expiry by the days of the interval, or by its months on the calendar, from the expiry or the settlement, whichever is later |
| `PaidTime.YearIsTwelveMonths` | lnvps_api_common/src/mock.rs:2433-2435 | a yearly subscription ends where the monthly one with twelve times the amount does |
| `PaidTime.SettlementLostToStaleCancel` | lnvps_api/src/worker.rs:369-372 | a settlement between listing and cancelling is undone while its payment stays paid |
| `PurgeRuns.SettlementSecures` | lnvps_api_common/src/mock.rs:2438-2440 | a settlement outside the purge window, with no row waiting that was listed before the set-up, secures the subscription |
| `PurgeRuns.SetUpNeverPurged` | lnvps_api/src/worker.rs:1108-1136 | once set up outside its window, no run purges the subscription or a VM of it |
| `PurgeRuns.UnpaidStaysUnpaid` | lnvps_api/src/worker.rs:1133-1157 | without a settlement since, what is purged is still not set up |
| `PurgeRuns.ProtectedNeverPurged` | lnvps_api/src/worker.rs:59-70 | set up, invoice valid, or deposit seen: every VM survives every run up to the horizon, if no settlement falls into its window |
| `PurgeRuns.DepositShields` | lnvps_api/src/worker.rs:61-70 | a deposit seen on chain protects the subscription from then on |
| `PurgeRuns.InvoiceShields` | lnvps_api/src/worker.rs:66-69 | an invoice protects it for as long as it is valid |
| `PurgeRuns.CleanWhenPaidUp` | lnvps_api/src/worker.rs:1111-1157 | where active rows with an expiry are set up, avoiding the purge windows is all that is asked of settlements |
| `PurgeRuns.YoungNeverPurged` | lnvps_api/src/worker.rs:1098-1100 | within an hour of its creation no run purges a subscription |
| `PurgeRuns.SettlementInWindowIsPurged` | lnvps_api/src/worker.rs:1111-1157 | a settlement between re-read and payment read does not stop the purge |
| `PurgeRuns.PurgeableExactlyInWindow` | lnvps_api/src/worker.rs:1111-1157 | a set-up subscription can be purged by some run if and only if a VM of it is past its re-read, before or after the payment read and with any payments |
| `PurgeRuns.PurgeTakesAll` | lnvps_api_common/src/mock.rs:1166-1199 | a purge leaves no payment, line item, history or row of the VM and its subscription, and every other row as it is |
| `PurgeChecks.CheckPurgesUnpaid` | lnvps_api/src/worker.rs:1060-1176 | every VM check that was started and is over has purged each never-paid subscription that was created more than an hour before its start and had a live VM, with any steps in between, unless a payment of it turned up or the host failed |
| `PurgeChecks.OrphanNeverPurged` | lnvps_api/src/worker.rs:1087-1096 | a VM row whose line item is gone is never purged by any run |
| `PurgeChecks.SiblingIsOrphaned` | lnvps_api_common/src/mock.rs:1187-1197 | the purge of one VM leaves every other VM of its subscription as such a row |
| `HistoryTable.Table.InsertVmHistory` | lnvps_api_common/src/mock.rs:1861-1868 | the row is stored under the table size plus one |
| `HistoryTable.InsertKeepsEntries` | lnvps_api_common/src/mock.rs:1861-1868 | nothing is lost exactly when that id is unused; dense ids stay dense |
| `HistoryTable.PurgeKeepsDense` | lnvps_api_common/src/mock.rs:1177-1177 | a purge leaves the ids dense exactly when the VM's rows are the newest |
| `HistoryTable.TableStuck` | lnvps_api_common/src/mock.rs:1861-1868 | once the next id is taken every later row overwrites the one before |
| `HistoryTable.PurgeCostsAnotherMark` | lnvps_api_common/src/mock.rs:1861-1868 | a purge and one more row drop the Expired mark of another VM |
| `IpPicker.PickIpFromRange` | lnvps_api_common/src/network.rs:135-216 | refuses exactly on a bad row, a full-looking or exhausted range or SLAAC on IPv4; a static pick in either family lies in the network and is neither stored, nor the gateway, nor the first or last of an IPv4 network, and a sequential one is the least such address |
| `IpPicker.Ipv6RefusedExactly` | lnvps_api_common/src/network.rs:160-173 | an IPv6 pick is refused if and only if the gateway does not parse or a sequential range has nothing left |
| `IpPicker.PlainGatewayKeepsPrefix` | lnvps_api_common/src/network.rs:17-34 | a gateway without a prefix is one host, and the address keeps the prefix of its range |
| `IpPicker.FindLowest` | lnvps_api_common/src/network.rs:170-173 | the lowest unmarked address, or all are marked |
| `IpPicker.FindRandom` | lnvps_api_common/src/network.rs:174-196 | an unmarked address, unless every draw was marked |
| `IpRegions.PickedOnLink` | lnvps_api_common/src/network.rs:141-173 | for static picks the gateway is on link if and only if it lies in the range or the range lies inside its network |
| `IpRegions.KindNeverNarrows` | lnvps_api_common/src/network.rs:84-93 | a range is kept exactly when its network parses, whatever the kind |
| `IpRegions.PickIpKindForRegion` | lnvps_api_common/src/network.rs:74-128 | per family: granted by one of the ranges, or every range of the family refuses, for every shuffle |
| `IpAccounting.ComputeFreeIps` | lnvps_api_common/src/network.rs:313-357 | exactly the free addresses, in ascending order, for an IPv4 range with a gateway |
| `IpAccounting.CountAgainstList` | lnvps_api_common/src/network.rs:263-292 | never above the free list; equal if and only if the list is empty or reserved and stored addresses are tidy |
| `IpAccounting.CapacityIsCount` | lnvps_api_common/src/capacity.rs:501-525 | placement and administration count the same number |
| `IpAccounting.CapacityMeansPick` | lnvps_api_common/src/network.rs:148-207 | with capacity the early exit is silent and an address is free; refused only for a bad gateway or SLAAC |
| `IpAccounting.RefusedExactlyWhenFull` | lnvps_api_common/src/network.rs:160-173 | with in-range assignments a sequential pick of either family fails exactly when nothing is free |
| `IpAccounting.RefusedExactlyWhenMarked` | lnvps_api_common/src/network.rs:160-173 | with any stored addresses (fewer than 2^32), exactly when as many addresses are marked as the range has |
| `IpAccounting.StraysRefuse` | lnvps_api_common/src/network.rs:160-165 | enough stray rows refuse a range with every address free |
| `IpRuns.RunStaysHealthy` | lnvps_api_common/src/network.rs:135-216 | from an empty range of either family every run keeps live addresses distinct, in the network, never the gateway and in IPv4 never its first or last |
| `IpRuns.PickTakesLowest` | lnvps_api_common/src/network.rs:167-173 | along it a pick adds the lowest address left to hand out, and nothing exactly when none is left |
| `IpRuns.CountersExactAlongRuns` | lnvps_api_common/src/network.rs:263-292 | along it, in IPv4 and when the reserved addresses are distinct, both counters equal the number of addresses left to pick |
| `IpRuns.AssignmentTable.InsertVmIpAssignment` | lnvps_api_common/src/mock.rs:1329-1340 | the row is stored under the largest id plus one |
| `IpRuns.AssignmentTable.DeleteVmIpAssignment` | lnvps_api_common/src/mock.rs:1391-1399 | only that row is flagged as deleted |
| `IpRuns.AssignmentTable.ListInRange` | lnvps_api_common/src/mock.rs:1363-1373 | the live rows of the range, each once |
| `IpRuns.AssignmentTable.PickAndInsertFor` | lnvps_api_common/src/network.rs:135-216 | takes the lowest free address, keeps the table healthy, fails exactly when none is free |
| `HostCapacities.GetHostForTemplate` | lnvps_api_common/src/capacity.rs:69-97 | the first of the least loaded hosts that accept, or none accepts; never one with more in use than an accepting host of the same hardware |
| `HostCapacities.LoadIsMean` | lnvps_api_common/src/capacity.rs:402-435 | the load is the mean of the shares of loaded CPU, memory and disk in use, 0 when idle and 1 when full |
| `HostCapacities.LoadGrows` | lnvps_api_common/src/capacity.rs:402-435 | on the same hardware more CPU, memory or disk in use is a strictly larger load |
| `HostCapacities.AcceptanceSpelledOut` | lnvps_api_common/src/capacity.rs:438-465 | an order is accepted if and only if region, maker, architecture, features, CPU, memory, one disk of its kind and an IPv4 range all suit |
| `HostCapacities.CpuLeftExactly` | lnvps_api_common/src/capacity.rs:415-418 | CPU in use and CPU left add up to the loaded CPU rounded down, and nothing is left beyond it |
| `HostCapacities.MemoryLeftExactly` | lnvps_api_common/src/capacity.rs:426-430 | the same for memory and its own load factor |
| `HostCapacities.DiskLeftExactly` | lnvps_api_common/src/capacity.rs:480-488 | the same for a disk and its own load factor |
| `CapacityAnswers.ApplyHostCapacityLimits` | lnvps_api_common/src/capacity.rs:101-234 | the answer holds exactly the templates with an option in stock and CPU and memory on hosts that serve one, in order, each cut to what the hosts have |
| `CapacityAnswers.AnswerExactly` | lnvps_api_common/src/capacity.rs:229-233 | a template is in the answer if and only if its maxima are positive, an option is in stock and hosts that serve one have CPU and memory left |
| `CapacityAnswers.KeptOptions` | lnvps_api_common/src/capacity.rs:173-198 | the options kept are exactly those whose smallest size a serving host stores, in order, each cut to the largest size stored |
| `CapacityAnswers.MaximaExactly` | lnvps_api_common/src/capacity.rs:202-226 | a maximum is cut exactly to what one host that serves an option in stock has left |
| `CapacityLimits.OptionHasOneHost` | lnvps_api_common/src/capacity.rs:166-198 | every disk option left has one host with minimum CPU and memory, an IPv4 address and one disk for its maximum |
| `CapacityLimits.OptionKeptExactly` | lnvps_api_common/src/capacity.rs:173-198 | an option stays exactly when its minimum can be stored; a size is cut exactly when no serving host can store it |
| `CapacityLimits.ServingHostAccepts` | lnvps_api_common/src/capacity.rs:438-465 | a host behind an option accepts the order if and only if it names its maker and architecture where asked |
| `CapacityLimits.AdvertisedOrderAccepted` | lnvps_api_common/src/capacity.rs:69-97 | a serving host accepts the minimum CPU and memory at a size if and only if one that stores the size is named; advertised sizes are then accepted whatever the other hosts are |
| `OrderLimits.HostAcceptsExactly` | lnvps_api_common/src/capacity.rs:438-465 | a host accepts any order at or above the minima if and only if it serves the template, is named and has CPU, memory and one disk free together |
| `OrderLimits.BoxAcceptedExactly` | lnvps_api_common/src/capacity.rs:101-234 | all orders between the minima and the advertised maxima are accepted if and only if one serving, named host has the three maxima free together |
| `OrderLimits.UnnamedHostAdvertises` | lnvps_api_common/src/capacity.rs:130-135 | an option on offer of which every host rejects every advertised order |
| `OrderLimits.SplitMaximaAdvertised` | lnvps_api_common/src/capacity.rs:166-226 | an advertised order that two serving, named hosts both reject |
| `CapacityLimits.OfferedStaysOrdered` | lnvps_api_common/src/capacity.rs:200-226 | an offered template keeps its minima within its maxima |
| `CapacityLimits.MaximaAreServed` | lnvps_api_common/src/capacity.rs:202-226 | each maximum is free on one host that serves a remaining option |
| `CapacityLimits.MaximaNotJointlyServed` | lnvps_api_common/src/capacity.rs:166-226 | two hosts on which the advertised maxima together fit nowhere |
| `CapacityLimits.LoadNeverAdds` | lnvps_api_common/src/capacity.rs:126-233 | more use anywhere raises no maximum and adds no option or template |
| `CapacityLimits.AnswerShrinksWithLoad` | lnvps_api_common/src/capacity.rs:229-233 | the whole answer embeds, in order, into the answer at lower load |
| `Placement.PickForAcceptedHost` | lnvps_api_common/src/network.rs:74-207 | an accepted host with one usable range with room yields an IPv4 address for every shuffle; without an address some range with room is unusable; it hangs only on a random range with nothing left to draw |
| `Placement.HangsOnlyWhenFull` | lnvps_api_common/src/network.rs:174-196 | drawing goes on for ever only on an IPv6 range with nothing free or a wrapped count |
| `AppClusters.SelectsFirst` | lnvps_api_common/src/capacity.rs:611-622 | the first eligible cluster, and none only when none is eligible |
| `AppClusters.NeverOvercommitted` | lnvps_api_common/src/capacity.rs:563-622 | over every run of placed orders and deletions each cluster stays within its capacity |
| `AppClusters.DeployTakes` | lnvps_api_common/src/capacity.rs:563-584 | a placed order takes its need from the selected cluster and from no other |
| `AppClusters.DeleteUndoesDeploy` | lnvps_api_common/src/mock.rs:3277-3304 | deleting a deployment gives back exactly what it took |
| `AppClusters.PartialSumsBounded` | lnvps_api_common/src/capacity.rs:572-583 | running sums never exceed the total |
| `AppClusters.SumUsed` | lnvps_api_common/src/capacity.rs:563-584 | the sum over the live deployments of the cluster |
| `AppClusters.AppDb.FirstFitting` | lnvps_api_common/src/capacity.rs:611-622 | the loop finds the selection |
| `AppClusters.AppDb.DeployApp` | lnvps_api/src/api/apps.rs:308-378 | places by selection, answers with the new id exactly when it stored one, and keeps every cluster within capacity |
| `AppClusters.LatePlacementKeepsCapacity` | lnvps_api/src/api/apps.rs:315-378 | an order stored on a cluster selected earlier keeps all capacities if and only if it still fits when stored |
| `AppClusters.TwoOrdersAtOnce` | lnvps_api/src/api/apps.rs:315-378 | two orders that select before either is stored overcommit exactly when the free room does not hold both |
| `AppClusters.AppDb.RegionsAvailability` | lnvps_api_common/src/capacity.rs:631-665 | each region with an enabled cluster once, in first-seen order, available exactly when an order would be placed, with that cluster's domain |
| `AppClusters.FirstSeenInOrder` | lnvps_api_common/src/capacity.rs:636-645 | the regions stand in the order in which each was first listed |
| `Shasum.ParseShasumFile` | lnvps_api_common/src/shasum.rs:149-164 | the entries of every line in order |
| `Shasum.FormatsAreDisjoint` | lnvps_api_common/src/shasum.rs:156-158 | no line fits two of the three formats |
| `Shasum.ParsingDistributes` | lnvps_api_common/src/shasum.rs:149-164 | cutting a file at a line break and parsing the parts gives the whole |
| `Shasum.FileParsesBack` | lnvps_api_common/src/shasum.rs:125-164 | any mix of well-formed GNU, bare and BSD lines, comments and blanks parses back to what was printed |
| `Shasum.GnuNameRecovered` | lnvps_api_common/src/shasum.rs:325-342 | a GNU name comes back if and only if it has no white ends and starts with no star |
| `Shasum.DigestLengthChecked` | lnvps_api_common/src/shasum.rs:325-358 | GNU and bare digests have the length of their algorithm |
| `Shasum.GnuCapitals` | lnvps_api_common/src/shasum.rs:337-341 | a GNU digest with capitals gives the entry with the same digits in lower case |
| `Shasum.BareCapitals` | lnvps_api_common/src/shasum.rs:348-358 | and so does a bare one |
| `Shasum.BsdLengthUnchecked` | lnvps_api_common/src/shasum.rs:361-384 | every BSD line with a hexadecimal digest, empty or not, gives one entry, whose checksum has its algorithm's length if and only if the digest has |
| `Exchange.FiatRoundTrip` | lnvps_api_common/src/exchange.rs:89-104 | fiat to Bitcoin and back is the identity up to a rate of a billion, short of saturation |
| `Exchange.LossyAboveBillion` | lnvps_api_common/src/exchange.rs:89-104 | at every higher single-precision rate some amount is lost |
| `Exchange.BtcRoundTripError` | lnvps_api_common/src/exchange.rs:89-104 | Bitcoin to fiat and back is off by at most 1/2 plus 5e8/rate milli-sats |
| `Exchange.FiatToQuote` | lnvps_api_common/src/exchange.rs:89-104 | between two fiat currencies the base is multiplied by the rate, to the nearest cent |
| `Exchange.FiatToBase` | lnvps_api_common/src/exchange.rs:89-104 | and the quote divided by it |
| `AltPrices.PricesReach` | lnvps_api_common/src/exchange.rs:153-184 | exactly one price per currency one or two rates away, none for the source, the first direct rate wins |
| `AltPrices.TwoHopPrice` | lnvps_api_common/src/exchange.rs:161-181 | a price two rates away goes over the first rate that leads on to it from a currency one rate away, and to that one over the first rate there |
| `AltPrices.CrossOrigin` | lnvps_api_common/src/exchange.rs:161-171 | a cross price is a direct price converted once more |
| `AltPrices.ComputeAltPrices` | lnvps_api_common/src/exchange.rs:153-184 | the loops build that list |

## Left out

- Calendar arithmetic: adding months is a parameter that never goes back in time; time values are unbounded naturals.
- New orders and edits by customers or administrators: no step of a run adds or edits a subscription, line item or VM.
- Interleaving inside one turn of the subscription check, inside one settlement and inside one purge: each is one step. The payment of an automatic renewal arrives as its own settlement.
- A settlement in a run carries the stored payment row.
- History entries other than Expired (renewed, deleted, payment received), firewall rules and IP rows removed by a purge.
- Fields no decision reads (names, currencies, paid_at, external_data, node and disk ids) and the extra per-VM and administrator messages sent along with a notice.
- Clock reads between two VMs of the same expired subscription: one turn writes its Expired entries at one instant.
- Two VM rows on one line item: lookups by line item assume at most one, as orders create them.
- Overlapping checks by several workers, worker crashes inside a check, and database read failures.
- Grouping of paid VMs by host and the host status check of `check_vms`.
- Single- and double-precision rounding: load factors and rates are exact reals; casts saturate as in the source.
- The whole address space as a range (prefix 0), and parsing of network and gateway text, which is a field of the row.
- How host usage is summed from VM rows; the capacity functions start from the sums.
- Picking and storing an address are one step in runs of the address table.
- Upper-casing of algorithm names is modelled where it can give ASCII letters.
- `calculate_eui64`, `ipv6_to_ptr`, `find_checksum` and the fetching of checksum files and rates: easy members or I/O.
- Sessions and login tokens, Nostr domains, VM upgrades and reinstalls, bulk mail: separate features.
- Provisioning, routers, DNS, notifications, authentication, the eBPF firewall and the operator: I/O over other services.
- IpRegions.PickIpKindForRegion: does not promise to end when an IPv6 random range has nothing left to draw, because the source loops there.
- Placement.PickForAcceptedHost: asks that drawing reaches a free address when there is one, because the source gives no bound on its random draws.
- HostCapacities.GetHostForTemplate: asks for positive sizes and load factors of the hosts that accept, because the source divides by them and its comparison of the quotients is undefined otherwise.
- BackgroundWorker.Worker.ExpiryAlreadyHandled: asks that a line item backs at most one VM row, as every order creates them; with two, the source's lookup picks one of them arbitrarily and misses the other.
- BackgroundWorker.Worker.LogVmsExpired: the same, one VM row per line item.
- BackgroundWorker.Worker.Cancel: the same, one VM row per line item.
- BackgroundWorker.Worker.HandleSubscriptionState: the same, one VM row per line item.
- BackgroundWorker.Worker.CheckSubscriptions: the same, one VM row per line item.
- BackgroundWorker.Worker.CheckVms: does not model the status check of paid VMs on their hosts, which changes no table of the model.
- InMemoryDb.MockDb.HardDeleteVm: does not model the removal of firewall rules and IP assignments, which no billing decision reads.
- AppClusters.AppDb.DeployApp: does not model the enabled flag of the app and the checks of name and configuration, which only turn orders away before a cluster is selected.
