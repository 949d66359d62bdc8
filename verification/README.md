# Helios Home: models of the energy manager's algorithmic cores

Helios Home manages a household's batteries, chargers, heat pumps and loads, follows the power limits
a grid operator sends over EEBUS, and talks to its owner through an agent. This project models the
parts of it in which several operations share state or depend on one another, and proves what holds
across them. `dafny verify dfyconfig.toml` checks everything.

| part | modules |
|---|---|
| Grid-operator limits: recording, lazy expiry, effective limits | `LoadLimits` |
| Splitting a limit across devices | `LimitSplit`, `Rounding` |
| Delivering limits to peers and crediting their answers | `DeliveryStatus`, `DeliveryTrace`, `DeliveryRuntime`, `PeerLink` |
| The connection registry of the EEBUS runtime | `ConnectionRegistry`, `ConnectionManager` |
| Reconciling discovery candidates | `CandidateKeys`, `CandidateClusters`, `CandidateMerge`, `MergeLaws`, `Reconciliation`, `Sorting` |
| The planner's optimization problem | `MinimumRun`, `SitePlan`, `PlanLaws` |
| Command contracts and dispatch | `HemsAssets`, `Dispatch` |
| Tool names, answer streaming and the turn of the agent | `ToolNames`, `TextStream`, `AgentTrace`, `AgentRun` |
| Inventory sync of protocol endpoints | `EndpointProperties`, `HomeGraph` |
| Placing device cards around the home card | `CanvasLayout`, `CanvasCapacity`, `CanvasWorkspace`, `CanvasLaws` |
| Strings, counting, optional values | `Text`, `Counting`, `Wrappers` |

State that the program updates in place is a class whose methods are tied to functions of the old
state; protocols are state machines over traces of atomic steps, and each class method is proved to
take the step its event stands for. Numbers are exact (`int` and `real`), with the program's rounding
to even and to four digits written out. The optimization solver is an oracle: the results hold for
every assignment that satisfies the constraints, or for every optimal one.

## Where the code and its promises part

Each of these is stated by a lemma that names the input, and where it is more than one input by the
exact condition.

- The rows of one limit split can add up to more than the limit: 3 W in two equal shares hand out 4 W.
  Two devices get too much exactly when the limit is odd and the first exact share ends in one half
  above an odd number (`LimitSplit.TwoDevicesMissExactlyWhen`); n devices never miss by more than n/2
  watts, and not at all when every exact share is whole (`LimitSplit.WholeSharesMeetLimit`).
- A retry never reaches a delivery whose stored target SKI contains a colon or a blank, because it
  compares that with a normalized SKI; any other delivery that could be sent is reached
  (`DeliveryRuntime.RetryReachesExactly`). A pending delivery for "aa:bb" shows it
  (`DeliveryRuntime.ColonTargetIsNeverRetried`).
- A readback confirmation does not last: when the write is answered after it, the delivery ends as
  acknowledged, or as rejected (`DeliveryTrace.LateAnswerReplacesReadback`). A verdict changes exactly
  by the events of `DeliveryTrace.VerdictChangesIff`, and is final once no counter is pending for the
  delivery and it is not sent again (`DeliveryTrace.SettledVerdictLasts`).
- A command with duration zero never expires, like one without a duration, and every other active one
  does (`LoadLimits.NeverExpiresIff`).
- A limit swept at a later time stays gone when the clock steps back; that is the only way in which
  lazy expiry differs from replaying the commands (`LoadLimits.SweepMissesReplayIff`,
  `LoadLimits.BackwardClockLosesALimit`).
- The cached active directions are not recomputed on a disconnect, so they can name directions that
  only the removed endpoint used (`ConnectionRegistry.DisconnectKeepsDirectionsExactIff`,
  `ConnectionRegistry.StaleDirectionRun`).
- An endpoint that becomes ready before it is registered can end up with a ready link whose SKI is
  missing from the ready set (`ConnectionRegistry.StrangerRun`); a start causes this exactly when it
  keeps such a link (`ConnectionRegistry.StartIsSafeIff`).
- All MQTT devices of an inventory whose slugs consist of symbols only are merged into one, because
  every such slug normalizes to nothing (`Reconciliation.SymbolSlugsMerge`); slugs collide exactly when they are not
  blank and normalize to the same text (`CandidateKeys.SlugsCollideIff`).
- Among members of equal rank, merged telemetry takes the reading of the last, while the primary
  member is the first (`CandidateMerge.TelemetryFromBestMember`, `CandidateMerge.PrimaryIsBest`).
- Where exporting earns more than importing costs, every optimal plan drives import or export to its
  limit (`SitePlan.ArbitrageSaturatesALimit`).
- A tool is found again under its external name exactly when its name is not blank and has no outer
  whitespace (`ToolNames.RoundTrip`); under the name used for any other, a different tool may answer
  (`ToolNames.AnotherToolAnswers`).
- Streaming loses a space exactly when the text starts with one, or when a double space inside it meets
  a chunk of at least 48 characters (`TextStream.LosesIff`); any long word followed by two spaces shows
  it (`TextStream.DoubleSpaceIsLost`).
- The second sync of an unchanged inventory differs from the first when a new endpoint was observed
  once with an explicit null TLS probe (`HomeGraph.SyncIsIdempotentIff`); from then on nothing changes.
- The card rings stop growing at a radius of 540. So 49 or more cards have no layout on any canvas, and
  the workspace that comes back for them has none (`CanvasCapacity.LayoutHasCapacity`,
  `CanvasWorkspace.ManyCardsNeverFit`). The size taken when the search fails is never one that fits for
  more than 16 cards or a visible width from 1332 on (`CanvasWorkspace.FailedSearchNeverFits`), and the
  wider part of the grid offers nothing new (`CanvasWorkspace.WiderSearchFindsNothingNew`).

## Model

| member | source | states |
|---|---|---|
| LoadLimits.LimitTable.Record | apps/edge-api/app/hems/load_control.py:134-178 | Recording supersedes every active row of the same key and appends a row with the command's watts, key and state, expired from the instant on at which the command's seconds have passed; the table stays equal to what the log says is in force. |
| LoadLimits.LimitTable.ExpireListed | apps/edge-api/app/hems/load_control.py:365-393 | On any table, valid or not, exactly the listed rows that are unexpired and the first of their key stay active; nothing else about any row changes. |
| LoadLimits.LimitTable.ActiveLimits | apps/edge-api/app/hems/load_control.py:365-393 | A sweep returns exactly the limits in force at its time on the site, newest first, one per key, and leaves the table equal to the log extended by the sweep. |
| LoadLimits.LimitTable.EffectiveGridLimits | apps/edge-api/app/hems/load_control.py:416-427 | Import and export limits are the least of the policy limit and the consumption or production limits in force. |
| LoadLimits.RecordedLimitBinds | apps/edge-api/app/hems/load_control.py:134-178 | From a command to the grid limits: until its seconds have passed, a recorded limit binds the import or the export side, by its use case, in kilowatts. |
| LoadLimits.LimitTable.ActiveRowsAreUnique | apps/edge-api/app/hems/load_control.py:149-159 | At most one row per use case, limit id and peer is ever active. |
| LoadLimits.StandingMatchesLastCommand | apps/edge-api/app/hems/load_control.py:365-393 | Under a monotone clock: what is in force is the last command and active, and the last command is in force as long as it is active and unexpired; an expired one may stay until the next sweep. |
| LoadLimits.StandingExactly | apps/edge-api/app/hems/load_control.py:365-393 | For any log, under any clock: the limit in force is the last command exactly when that is active and no sweep of its site since has found it expired; otherwise there is none. |
| LoadLimits.SweepMissesReplayIff | apps/edge-api/app/hems/load_control.py:365-393 | Right after a sweep, lazy expiry differs from replay exactly when the last command is active and unexpired now but an earlier sweep has found it expired. |
| LoadLimits.SweepRefinesReplay | apps/edge-api/app/hems/load_control.py:365-393 | Under a monotone clock, for any interleaving of commands and sweeps, lazy expiry agrees with replaying the command log and ignoring all earlier sweeps. |
| LoadLimits.SurvivorsCoverListed | apps/edge-api/app/hems/load_control.py:372-392 | No unexpired listed limit is dropped without a limit of the same key that is at least as new being kept. |
| LoadLimits.SweepKeepsStanding | apps/edge-api/app/hems/load_control.py:365-393 | What an expiry pass over a valid table returns is what the extended log says is in force. |
| LoadLimits.UnexpiringLimitStands | apps/edge-api/app/hems/load_control.py:134-178 | A limit without expiry stays in force through any later operations that do not command its key. |
| LoadLimits.NeverExpiresIff | apps/edge-api/app/hems/load_control.py:134-178 | An active command stands through everything that does not command its key exactly when it came without a duration or with duration zero. |
| LoadLimits.StandsExactlySeconds | apps/edge-api/app/hems/load_control.py:174 | An active command for s seconds stands in a sweep at t exactly while t is before the instant of recording plus s seconds. |
| LoadLimits.SameKeyIff | apps/edge-api/app/hems/load_control.py:148-155 | Two commands are about one limit exactly when site, use case, limit id and the trimmed lower-case peers agree. |
| LoadLimits.BackwardClockLosesALimit | apps/edge-api/app/hems/load_control.py:365-393 | The difference occurs: after a sweep at 20 seconds, a sweep at 5 seconds does not report a command for 10 seconds recorded at 0, although replay would. |
| LimitSplit.BuildDistribution | apps/edge-api/app/hems/load_control.py:430-489 | One row per device in order. On the rows themselves: watts within half a watt of limit times share over total, between zero and the limit, monotone in the share, with a sum within n/2 of the limit, and all zero without a positive share; the endpoint is the EEBUS one whenever that is usable. |
| LimitSplit.CreateDeliveries | apps/edge-api/app/hems/load_control.py:181-243 | One delivery per row that names a device, in order, with that row's device, watts and endpoint and its SKI in stored form; it is skipped exactly when the row has no watts. |
| LimitSplit.RowsAreProportional | apps/edge-api/app/hems/load_control.py:446-489 | The proportional bounds, stated about the rows of the distribution, with the reported share to six digits. |
| LimitSplit.DeliveryPendingExactly | apps/edge-api/app/hems/load_control.py:181-243 | From configuration to delivery: it waits to be sent exactly when power was allocated and an endpoint is usable; its target SKI is trimmed and lower case. |
| LimitSplit.AllocationNearShare | apps/edge-api/app/hems/load_control.py:446-476 | Each allocation is within half a watt of the exact proportional share, and between zero and the limit. |
| LimitSplit.AllocationMonotone | apps/edge-api/app/hems/load_control.py:446-476 | A device with a larger share never gets fewer watts. |
| LimitSplit.AllocationSumBound | apps/edge-api/app/hems/load_control.py:446-489 | Over n participants the allocations miss the limit by at most n/2 watts in either direction. |
| LimitSplit.TwoDevicesMissExactlyWhen | apps/edge-api/app/hems/load_control.py:446-476 | Two devices get more than the limit exactly when it is odd and the first exact share ends in one half above an odd number, and less exactly when above an even one. |
| LimitSplit.WholeSharesMeetLimit | apps/edge-api/app/hems/load_control.py:446-476 | When every exact share is whole, exactly the limit is handed out, however many devices there are. |
| LimitSplit.OneDeviceGetsTheLimit | apps/edge-api/app/hems/load_control.py:446-476 | A single device gets the whole limit. |
| LimitSplit.SplitCanExceedLimit | apps/edge-api/app/hems/load_control.py:446-476 | The smallest split that hands out too much: 3 W in two equal shares. |
| LimitSplit.NoSharesNoAllocation | apps/edge-api/app/hems/load_control.py:446-476 | Without a positive share nothing is allocated, whatever the limit. |
| DeliveryStatus.FieldsSummarizeHistory | apps/edge-api/app/hems/load_control.py:320-354 | The stored fields determine the full update history's facts: first sent, first acknowledged, last readback, current status, and the last 20 updates. |
| DeliveryStatus.TimestampsAreOrdered | apps/edge-api/app/hems/load_control.py:333-346 | Under a monotone clock readback implies acknowledged implies sent, in that order of time. |
| DeliveryStatus.TimestampsAreWriteOnce | apps/edge-api/app/hems/load_control.py:333-346 | Once set, the sent and acknowledged times survive every later sequence of updates. |
| DeliveryStatus.UpdatesAreNewest | apps/edge-api/app/hems/load_control.py:347-352 | The stored list is exactly the last 20 entries of the whole history. |
| DeliveryStatus.ErrorIsLatest | apps/edge-api/app/hems/load_control.py:336-339 | The stored error is that of the last update that brought one or cleared it. |
| DeliveryTrace.PendingIffOpen | apps/edge-api/app/services/eebus_runtime.py:1275-1283 | In every run a counter is pending exactly when a send registered it and nothing has consumed, replaced or cleared it since; it belongs to the latest such send. |
| DeliveryTrace.AnsweredOnlyThroughCredit | apps/edge-api/app/services/eebus_runtime.py:1275-1384 | In every run an EEBUS delivery is acknowledged, rejected or confirmed only through an answer with that verdict credited to a successful send of that delivery. |
| DeliveryTrace.CreditIsOneToOne | apps/edge-api/app/services/eebus_runtime.py:1376-1384 | A registration is consumed at most once per map, and an answer credits at most one send. |
| DeliveryTrace.CreditedAnswerTakesEffect | apps/edge-api/app/services/eebus_runtime.py:1285-1374 | While the runtime is attached, a credited answer gives its verdict to the delivery of the credited send at once. |
| DeliveryTrace.SendSetsStatus | apps/edge-api/app/services/eebus_runtime.py:1148-1206 | A successful send leaves a delivery sent, a failure on the way pending without error, any other failure or a dead loop failed with the error. |
| DeliveryTrace.VerdictChangesIff | apps/edge-api/app/services/eebus_runtime.py:1285-1407 | One step changes the verdict of an EEBUS delivery exactly when the runtime is attached and the event is another send or a dead loop for it, the echo of its pending write, or an answer or confirming readback pending for it that says something else. |
| DeliveryTrace.VerdictLostOnlyBy | apps/edge-api/app/services/eebus_runtime.py:1285-1407 | Over all runs, a verdict that no longer holds was replaced by such an event at a point where it still held. |
| DeliveryTrace.SettledVerdictLasts | apps/edge-api/app/services/eebus_runtime.py:1285-1407 | Once no counter is pending for the delivery and it is not sent again, its verdict holds for ever. |
| DeliveryTrace.LateAnswerReplacesReadback | apps/edge-api/app/hems/load_control.py:320-354 | A readback confirmation followed by the answer to the write ends as acknowledged or rejected. |
| DeliveryTrace.UnmatchedAnswerIsIgnored | apps/edge-api/app/services/eebus_runtime.py:1376-1384 | An answer that no open registration matches changes nothing. |
| DeliveryTrace.DeliveryHasHistory | apps/edge-api/app/services/eebus_runtime.py:1386-1407 | In every run each delivery is a fresh delivery followed by a monotone history of updates. |
| DeliveryTrace.RunKeepsTimestampsOrdered | apps/edge-api/app/hems/load_control.py:320-354 | In every run under a monotone clock each delivery's timestamps are nested and ordered. |
| DeliveryRuntime.Runtime.RegisterPendingDelivery | apps/edge-api/app/services/eebus_runtime.py:1275-1283 | Registers the write counter and the readback counter under the normalized SKI, replacing an earlier registration of the same pair and leaving every other one. |
| DeliveryRuntime.Runtime.ReachableIsSafe | apps/edge-api/app/services/eebus_runtime.py:1275-1384 | In every state the runtime's methods can reach, a verdict on an EEBUS delivery is justified by a credited answer, and under a monotone clock all timestamps are nested and ordered. Every method ensures it. |
| DeliveryRuntime.Runtime.DeliveryIdForCounter | apps/edge-api/app/services/eebus_runtime.py:1376-1384 | Finds the delivery registered for the normalized SKI and counter, consuming the registration only when asked to. |
| DeliveryRuntime.Runtime.UpdateDeliveryStatus | apps/edge-api/app/hems/load_control.py:320-354 | The named delivery gets the specified update and ends in the given status; no other delivery changes. |
| DeliveryRuntime.Runtime.Updated | apps/edge-api/app/hems/load_control.py:328-353 | The update of a delivery field by field is the specified one. |
| DeliveryRuntime.Runtime.FinishSend | apps/edge-api/app/services/eebus_runtime.py:1148-1206 | A send tries the inbound session, then an outbound client. When it is delivered, the write counter is pending for the delivery among the writes and the readback counter among the readbacks, under the normalized SKI, with every other entry as before, and the delivery alone becomes sent; else it alone becomes pending or failed. |
| DeliveryRuntime.Runtime.ProcessWriteSent | apps/edge-api/app/services/eebus_runtime.py:1285-1321 | The echo of a pending write marks its delivery, and only that, sent, and leaves both maps alone. |
| DeliveryRuntime.Runtime.ProcessWriteResult | apps/edge-api/app/services/eebus_runtime.py:1285-1374 | An answer removes exactly its entry from the writes; the delivery pending there, and only that, becomes acknowledged for error number zero, else rejected with the reason. Without such an entry no delivery changes. |
| DeliveryRuntime.Runtime.ProcessReadback | apps/edge-api/app/services/eebus_runtime.py:1285-1374 | A readback removes exactly its entry from the readbacks; the delivery pending there, and only that, becomes confirmed if a limit state came along. Otherwise no delivery changes. |
| DeliveryRuntime.SendThenWriteResult | apps/edge-api/app/services/eebus_runtime.py:1148-1321 | End to end: a send that came back with a write counter, then an answer to it under any spelling of the peer, leaves the delivery acknowledged or rejected by the error number, and every other delivery alone. |
| DeliveryRuntime.SendThenReadback | apps/edge-api/app/services/eebus_runtime.py:1148-1374 | End to end: a send that came back with a readback counter, then a readback with a limit state for it, leaves the delivery confirmed. |
| DeliveryRuntime.SendThenStranger | apps/edge-api/app/services/eebus_runtime.py:1148-1321 | End to end: after a send, an answer to a counter nobody has pending leaves the delivery sent. |
| DeliveryRuntime.Runtime.FailPending | apps/edge-api/app/services/eebus_runtime.py:1409-1415 | With the event loop down every named delivery of the distribution fails with the error, in order, one step each; every other delivery stays as it is. |
| DeliveryRuntime.Runtime.RecordNativeOutcome | apps/edge-api/app/hems/load_control.py:268-317 | A native dispatch result touches only a pending delivery that has no EEBUS target, which becomes acknowledged, failed or not deliverable by it. |
| DeliveryRuntime.Runtime.SelectRetries | apps/edge-api/app/services/eebus_runtime.py:1083-1146 | A retry selects exactly the deliveries for the peer that are pending or transiently failed, with watts to deliver, under an active unexpired limit; each once. |
| DeliveryRuntime.RetryableIff | apps/edge-api/app/services/eebus_runtime.py:1083-1146 | What a retry needs, written out: the peer, an active delivery that is pending or failed on the way, watts, and a known, active, unexpired limit. |
| DeliveryRuntime.RetryReachesExactly | apps/edge-api/app/services/eebus_runtime.py:1083-1146 | A delivery is retried for some peer exactly when it could be sent and its stored target has no colon and no blank. |
| DeliveryRuntime.ColonTargetIsNeverRetried | apps/edge-api/app/services/eebus_runtime.py:1083-1146 | A pending delivery for "aa:bb" is retried for no peer. |
| DeliveryRuntime.FailedIsRetriedIff | apps/edge-api/app/services/eebus_runtime.py:1083-1146 | A failed delivery is retried exactly when its error is transient and it would be retried if it were pending. |
| PeerLink.NormalizeFixesExactlyNormal | apps/edge-api/app/services/eebus_runtime.py:1838-1839 | A SKI is its own normal form exactly when it has no colon, blank, outer whitespace or capital. |
| PeerLink.NormalizeIdempotent | apps/edge-api/app/services/eebus_runtime.py:1838-1839 | Normalizing twice is normalizing once. |
| PeerLink.NotConnectedIsTransient | apps/edge-api/app/hems/load_control.py:30-41 | The runtime's own error for a peer without a session is transient whatever the peer is called. |
| PeerLink.RetryReachesExactlyNormalTargets | apps/edge-api/app/services/eebus_runtime.py:1838-1839 | A target as it is stored is the normal form of some SKI exactly when it has no colon and no blank. |
| ConnectionRegistry.RunIsConsistent | apps/edge-api/app/services/eebus_runtime.py:237-306 | In every run over registered endpoints: listing and ready set agree, every ready direction's SKI is in the set in normal form, the cached directions cover every live one, and the listed endpoints are exactly the registered ones. |
| ConnectionRegistry.StartKeeps | apps/edge-api/app/services/eebus_runtime.py:237-306 | Registering or updating an endpoint keeps the registry consistent, leaves its requested directions live, and leaves every other link alone, of this endpoint and of others. |
| ConnectionRegistry.UpdateKeeps | apps/edge-api/app/services/eebus_runtime.py:696-717 | Updating a link of a registered endpoint keeps consistency if a ready link's SKI is already listed, and makes the cached directions exact. |
| ConnectionRegistry.RecomputeIsExact | apps/edge-api/app/services/eebus_runtime.py:724-738 | After recomputing, the ready set is exactly the SKIs with a ready direction and the current peer is one of them unless there is none. |
| ConnectionRegistry.ClosingKeepsOthersReady | apps/edge-api/app/services/eebus_runtime.py:512-522 | After a close the ready set is exact, other links are untouched, and the status is ready exactly while a ready peer remains. |
| ConnectionRegistry.DisconnectIsExact | apps/edge-api/app/services/eebus_runtime.py:556-582 | After a disconnect the endpoint is forgotten, the others remain, and the ready set is exact. |
| ConnectionRegistry.RestartDropsNothing | apps/edge-api/app/services/eebus_runtime.py:719-722 | After any run, a restart opens every requested and every live direction, each once and in order. |
| ConnectionRegistry.StartLinks | apps/edge-api/app/services/eebus_runtime.py:237-306 | A start overwrites exactly the requested links, towards the certificate's SKI; when the session is reused it makes those not ready ready under that SKI exactly when it is listed already, and leaves the others. |
| ConnectionRegistry.ReuseNeeds | apps/edge-api/app/services/eebus_runtime.py:645-664 | A session is reused only with its thread running, the runtime neither failed nor closed, the same local SKI, the peer reached in the same way as before, and every requested direction in use. |
| ConnectionRegistry.StartAgainReuses | apps/edge-api/app/services/eebus_runtime.py:237-306 | Starting the same endpoint again reuses the session the first start requested. |
| ConnectionRegistry.StartIsSafeIff | apps/edge-api/app/services/eebus_runtime.py:237-306 | A start keeps the ready set complete exactly when every SKI under which a kept link of the endpoint is ready is already in it; kept are unrequested links, and all of them when the session is reused. |
| ConnectionRegistry.StrangerRun | apps/edge-api/app/services/eebus_runtime.py:237-306 | The unsafe case occurs: outbound ready before registration, a close, then a start for inbound only. |
| ConnectionRegistry.DisconnectKeepsDirectionsExactIff | apps/edge-api/app/services/eebus_runtime.py:556-582 | The cached directions stay exact over a disconnect exactly when no direction was live at the removed endpoint alone. |
| ConnectionRegistry.StaleDirectionRun | apps/edge-api/app/services/eebus_runtime.py:556-582 | It occurs: after two starts and a disconnect the cache names a direction in which no link is live. |
| ConnectionRegistry.EndpointForIsRegistered | apps/edge-api/app/services/eebus_runtime.py:366-396 | The endpoint found for a SKI is registered and its certificate has that SKI; none is found only when no listed endpoint has it. |
| ConnectionManager.Manager.StartOrUpdate | apps/edge-api/app/services/eebus_runtime.py:237-306 | In place: the session is reused only if nothing the peer is reached by has changed and every requested direction is in use; otherwise a restart is due with exactly the requested and the cached active directions. |
| ConnectionManager.Manager.SetConnectionState | apps/edge-api/app/services/eebus_runtime.py:696-717 | In place: writes one link and recomputes the cached directions from all links; an unnamed endpoint or direction changes nothing. |
| ConnectionManager.Manager.RecomputeReadyPeerSkis | apps/edge-api/app/services/eebus_runtime.py:724-738 | In place: the loop over links yields exactly the SKIs of registered endpoints with a ready direction. |
| ConnectionManager.Manager.MarkListening | apps/edge-api/app/services/eebus_runtime.py:331-364 | In place: the inbound link of every registered endpoint becomes listening, every other link and the ready set stay, and the registry stays consistent. |
| ConnectionManager.Manager.MarkReady | apps/edge-api/app/services/eebus_runtime.py:366-396 | In place: the peer's normalized SKI is in the ready set and current, nobody leaves the set, the named link is ready, and the registry stays consistent. |
| ConnectionManager.Manager.MarkOutboundConnecting | apps/edge-api/app/services/eebus_runtime.py:398-428 | In place: the outbound link becomes connecting, every other link and the ready set stay, and the registry stays consistent. |
| ConnectionManager.Manager.MarkOutboundReady | apps/edge-api/app/services/eebus_runtime.py:430-469 | In place: the ready set gains exactly the peer's normalized SKI, the outbound link is ready under it, every other link stays, and the registry stays consistent. |
| ConnectionManager.Manager.MarkOutboundFailed | apps/edge-api/app/services/eebus_runtime.py:471-504 | In place: the outbound link is failed with the reason, every other link and the ready set stay, and the registry stays consistent. |
| ConnectionManager.Manager.MarkClosed | apps/edge-api/app/services/eebus_runtime.py:512-522 | In place: the link is closed with the reason and keeps its SKI, every other link stays, the ready set is exactly the SKIs with a ready link, the status is ready exactly when it is not empty, and the registry stays consistent. |
| ConnectionManager.Manager.DisconnectEndpoint | apps/edge-api/app/services/eebus_runtime.py:556-582 | In place: the endpoint is forgotten, the ready set is exact, the others keep their links, and a restart with the live directions is due unless none is left. |
| ConnectionManager.Manager.Stop | apps/edge-api/app/services/eebus_runtime.py:610-643 | In place: no peer, link, ready SKI or active direction is left, and the registry is consistent. |
| CandidateClusters.FindClusters | apps/edge-api/app/services/candidate_reconciliation.py:215-241 | The incremental merge computes exactly the connected components of "shares an identity key"; candidates that share no key stay alone in their order. |
| CandidateClusters.Absorb | apps/edge-api/app/services/candidate_reconciliation.py:218-238 | The first matching cluster, at its place, gathers the candidate and exactly the members of all matching clusters; the clusters that do not match stay in order; keys are disjoint again. |
| CandidateClusters.ApartClustersAreComponents | apps/edge-api/app/services/candidate_reconciliation.py:215-241 | Linked clusters with disjoint key sets are the components. |
| CandidateClusters.PartitionIgnoresOrder | apps/edge-api/app/services/candidate_reconciliation.py:215-241 | Permuting the input permutes the partition: candidates share a cluster before exactly when they do after. |
| CandidateClusters.KeylessStaysAlone | apps/edge-api/app/services/candidate_reconciliation.py:219-230 | A candidate without keys is linked to itself alone. |
| CandidateKeys.CollectIdentityKeys | apps/edge-api/app/services/candidate_reconciliation.py:63-80 | The loops over the evidence collect exactly the identity keys: stored keys, MAC keys and the MQTT slug key. |
| CandidateKeys.MacFixesExactlyBare | apps/edge-api/app/services/candidate_reconciliation.py:50-51 | A MAC address is kept exactly when it is written in lower-case letters and digits. |
| CandidateKeys.MacIgnoresCase | apps/edge-api/app/services/candidate_reconciliation.py:50-51 | Capitals do not matter to the key of a MAC address. |
| CandidateKeys.MacIgnoresSeparators | apps/edge-api/app/services/candidate_reconciliation.py:50-51 | Any other character can be left out wherever it stands. |
| CandidateKeys.MacIsBare | apps/edge-api/app/services/candidate_reconciliation.py:50-51 | The key is the address letter by letter, so no letter or digit is lost. |
| CandidateKeys.NormalizeFixesExactlySlugs | apps/edge-api/app/services/candidate_reconciliation.py:39-47 | Normalizing a text always gives lower-case words joined by single dashes, and keeps a text exactly when it is that. |
| CandidateKeys.KeysAreCanonical | apps/edge-api/app/services/candidate_reconciliation.py:39-80 | Every identity key is in the form that reading it back leaves unchanged. |
| CandidateKeys.CanonicalReadsBack | apps/edge-api/app/services/candidate_reconciliation.py:63-80 | Keys in that form, stored as evidence, are read back as exactly the same keys. |
| CandidateKeys.SlugsCollideIff | apps/edge-api/app/services/candidate_reconciliation.py:76-78 | Two MQTT slugs give a common key exactly when neither is blank and they normalize to the same text. |
| CandidateKeys.SymbolSlugsCollide | apps/edge-api/app/services/candidate_reconciliation.py:39-47 | All slugs that consist of symbols only give the same key. |
| CandidateMerge.MergedKeysAreUnion | apps/edge-api/app/services/candidate_reconciliation.py:153-180 | A merged candidate's identity keys are exactly the union of its members' keys. |
| CandidateMerge.MergeEvidence | apps/edge-api/app/services/candidate_reconciliation.py:153-180 | The loop over the members builds the sorted unions of keys, MACs and host names, and keeps each member's evidence under its sources. |
| CandidateMerge.MergeTelemetry | apps/edge-api/app/services/candidate_reconciliation.py:146-150 | The growing dict is the members' telemetry overlaid from the worst to the best rank. |
| CandidateMerge.TelemetryFromBestMember | apps/edge-api/app/services/candidate_reconciliation.py:146-150 | Merged telemetry has every member's readings, each from the best-ranked member that reports it, the last of them on a tie. |
| CandidateMerge.PrimaryIsBest | apps/edge-api/app/services/candidate_reconciliation.py:183-190 | The primary has the best rank and is the first of those that do. |
| CandidateMerge.NameFromBestLabelled | apps/edge-api/app/services/candidate_reconciliation.py:107-111 | The merged name is the own label of the best-ranked member that has one; the primary's label is used only when none has. |
| MergeLaws.PrimaryIsMostTrusted | apps/edge-api/app/services/candidate_reconciliation.py:93-104 | The primary was seen by the most trusted source that saw any member; among those it is monitorable if one is; among those none has more telemetry. |
| MergeLaws.MergedCapabilities | apps/edge-api/app/services/candidate_reconciliation.py:188-213 | A merged candidate is visible, monitorable, controllable or optimizable exactly when a member is, and has exactly its members' sources and protocols. |
| MergeLaws.MergedZone | apps/edge-api/app/services/candidate_reconciliation.py:138-143 | The merged recovery zone is human-gated exactly when a member is, and guarded exactly when one is and none is human-gated. |
| MergeLaws.MergedFields | apps/edge-api/app/services/candidate_reconciliation.py:114-135 | Model and firmware come from the best-ranked member that knows its own; an issue is reported only when no member can be monitored. |
| MergeLaws.MergedEvidenceKeeps | apps/edge-api/app/services/candidate_reconciliation.py:153-180 | Merged MAC addresses and host names are exactly the trimmed non-blank ones of all members. |
| MergeLaws.SourceEvidenceIsLatest | apps/edge-api/app/services/candidate_reconciliation.py:160-162 | Each source combination keeps the evidence of the last member seen by it. |
| Reconciliation.Reconcile | apps/edge-api/app/services/candidate_reconciliation.py:215-244 | The output is the name-sorted list of the merged connected components of the input. |
| Reconciliation.ReconciliationIsSettled | apps/edge-api/app/services/candidate_reconciliation.py:215-244 | No two output candidates share an identity key, and they are in name order. |
| Reconciliation.SingletonsMergeToThemselves | apps/edge-api/app/services/candidate_reconciliation.py:183-186 | Candidates without common keys merge one by one into themselves. |
| Reconciliation.ReconcileTwice | apps/edge-api/app/services/candidate_reconciliation.py:215-244 | Reconciling the output again returns it unchanged. |
| Reconciliation.SharedKeyMerges | apps/edge-api/app/services/candidate_reconciliation.py:215-244 | In any inventory, two candidates with a common key end up in one output candidate that has the keys of both. |
| Reconciliation.KeysFoundOnce | apps/edge-api/app/services/candidate_reconciliation.py:215-244 | Only one output candidate has the keys of a candidate that has any. |
| Reconciliation.SymbolSlugsMerge | apps/edge-api/app/services/candidate_reconciliation.py:215-244 | In any inventory, all devices whose MQTT slugs consist of symbols only end up in the same, single output candidate. |
| Reconciliation.PairMergesIff | apps/edge-api/app/services/candidate_reconciliation.py:215-244 | Two candidates alone come out as one exactly when they share a key, and as two otherwise. |
| Reconciliation.MacPairMergesIff | apps/edge-api/app/services/candidate_reconciliation.py:215-244 | Two candidates of which only a MAC address is known come out as one exactly when the addresses agree letter by letter. |
| MinimumRun.StartIsRisingEdge | apps/edge-api/app/hems/planner.py:212-223 | In every satisfying assignment the start variables are exactly the rising edges of the on variables. |
| MinimumRun.RunsAreLong | apps/edge-api/app/hems/planner.py:224-233 | In every satisfying assignment every maximal on-run, also one that touches the horizon end, lasts at least the minimum. |
| MinimumRun.EncodingIsExact | apps/edge-api/app/hems/planner.py:212-233 | A 0/1 schedule extends to a satisfying assignment exactly when all its runs are long enough, and then to exactly one. |
| MinimumRun.StartsTimesMinimum | apps/edge-api/app/hems/planner.py:212-233 | Starts times minimum never exceed the on-steps. |
| MinimumRun.MinimumOnStepsIsLeast | apps/edge-api/app/hems/site_model.py:156-170 | The computed number of steps is the least, and at least one, that lasts the configured minutes. |
| SitePlan.CancelOverlap | apps/edge-api/app/hems/planner.py:99-109 | Cancelling simultaneous import and export at a step stays feasible and changes the cost by exactly minus the price margin times the overlap. |
| SitePlan.CancelEverywhere | apps/edge-api/app/hems/planner.py:264-269 | Cancelling at every step stays feasible, leaves no overlap, keeps device plans and net flows, and costs no more when no import is cheaper than the export of its step. |
| SitePlan.OptimumNeverImportsAndExports | apps/edge-api/app/hems/planner.py:264-269 | Where importing costs more than exporting earns, no optimal plan does both in one step. |
| SitePlan.DefaultOptimumHasOneWayFlow | apps/edge-api/app/hems/forecast.py:21-28 | At the default prices every optimal plan has import times export zero at every step. |
| SitePlan.ArbitrageSaturatesALimit | apps/edge-api/app/hems/planner.py:264-269 | Where exporting earns more, every optimal plan runs import or export into its limit, so the price condition cannot be dropped. |
| SitePlan.BatteryEnergyBalance | apps/edge-api/app/hems/planner.py:118-140 | Over every window, discharged energy is the squared one-way efficiency times the charged energy plus what the fall in charge releases. |
| SitePlan.BatteryCannotCreateEnergy | apps/edge-api/app/hems/planner.py:118-140 | A battery delivers at most its charge after losses plus its capacity above the reserve. |
| SitePlan.FeasiblePlanRespectsDevices | apps/edge-api/app/hems/planner.py:99-269 | In every feasible plan each battery obeys the energy bound over every window, and each controllable load its minimum runs. |
| PlanLaws.SupplyMeetsDemand | apps/edge-api/app/hems/planner.py:264-269 | In every step of every feasible plan imports, generation and discharge equal exports, base load and device use, each asset counted on its own side. |
| PlanLaws.NetImportIsUse | apps/edge-api/app/hems/planner.py:264-269 | Without batteries and generation, net imports over any number of steps are exactly the energy the house and its devices use. |
| PlanLaws.InvertersShareForecast | apps/edge-api/app/hems/planner.py:250-259 | The inverters of a feasible plan together never use more than the forecast generation. |
| PlanLaws.RoomEnergyBalance | apps/edge-api/app/hems/planner.py:177-203 | Over every window a room warms by what heating brings less what it loses to the outside. |
| PlanLaws.DeviceCostIsNonnegative | apps/edge-api/app/hems/planner.py:118-262 | No device plan earns anything by itself, and an inverter's is free exactly when it uses its whole share. |
| PlanLaws.PenaltyRates | apps/edge-api/app/hems/planner.py:118-262 | What one unit more of deficit, discomfort, shortfall, throughput, curtailment or starting costs. |
| PlanLaws.OptimalEvDeficit | apps/edge-api/app/hems/planner.py:148-174 | In every optimal plan a car's deficit is exactly what its charging leaves it short at the deadline. |
| PlanLaws.OptimalLoadShortfall | apps/edge-api/app/hems/planner.py:235-241 | In every optimal plan a load's shortfall is exactly the on-steps its schedule lacks. |
| PlanLaws.OptimalHeatSlack | apps/edge-api/app/hems/planner.py:177-203 | In every optimal plan a room's slack is exactly how far it is outside its comfort range, in every step. |
| PlanLaws.DefaultTariff | apps/edge-api/app/hems/forecast.py:21-28 | The default tariff is cheapest at night, then late, then by day, dearest from four to nine, and always above the export price. |
| HemsAssets.DispatchableHasContract | apps/edge-api/app/hems/dispatchability.py:228-380 | A dispatchable asset has a contract and planner constraints, a controllable device, and a supported profile with native writes enabled or a simulation. |
| HemsAssets.DispatchableIff | apps/edge-api/app/hems/dispatchability.py:285-380 | Dispatchable is exactly a visible, monitorable, controllable device in a working state, of a known type, with a contract and a way to write. |
| HemsAssets.BlockedIff | apps/edge-api/app/hems/dispatchability.py:285-380 | Blocked is exactly a device that is missing, hidden, not monitorable or waiting for access; read-only is exactly another one of unknown type. |
| HemsAssets.ContractIff | apps/edge-api/app/hems/dispatchability.py:66-282 | Which assets have a command contract, by type, from their constraints. |
| HemsAssets.NumericIsFirst | apps/edge-api/app/hems/site_model.py:21-31 | A reading is that of the first key that has one. |
| HemsAssets.BatteryReadings | apps/edge-api/app/hems/site_model.py:88-105 | A battery's limits cover 3 kW, its reported limits and what it is doing, and are 3 kW without readings; its capacity covers what it reports as available. |
| HemsAssets.EvReadings | apps/edge-api/app/hems/site_model.py:108-122 | A car needs exactly the missing part of its capacity when it reports less charge than its target, and nothing otherwise; a current limit counts at 230 V. |
| HemsAssets.HeatAndLoadReadings | apps/edge-api/app/hems/site_model.py:125-170 | A heat pump may run with its reading or 2.5 kW, whichever is more; a load runs whole steps of at least its minimum minutes at no less than a quarter of a kilowatt, and at its reading in kW, else in W, when that is more. |
| Dispatch.ExtractIntervals | apps/edge-api/app/hems/planner.py:321-465 | The loop over assets and steps emits each asset's intervals in order, with the command rounded to four digits. |
| Dispatch.FallbackKey | apps/edge-api/app/hems/planner.py:21-34 | Without a contract the command goes under the key a contract for that type would name, except for a load. |
| Dispatch.PlannedCommands | apps/edge-api/app/hems/planner.py:321-465 | A planned command says what the site's balance counted: a load is switched on exactly when its nominal power is drawn, every other power is the drawn or supplied one to four digits. |
| Dispatch.IntervalsTile | apps/edge-api/app/hems/planner.py:321-465 | An asset's intervals follow each other without gap or overlap from the start of the horizon over all its steps. |
| Dispatch.NowIsInFirstStep | apps/edge-api/app/hems/forecast.py:9-11 | The aligned horizon starts with the step the current time falls in, for every step length. |
| Dispatch.StartIsAligned | apps/edge-api/app/hems/forecast.py:9-11 | The horizon starts on a multiple of the step length counted from the full hour. |
| Dispatch.CurrentIsCoveringOrFirst | apps/edge-api/app/hems/dispatcher.py:57-64 | Current are exactly the intervals that cover the instant, and when none does exactly those that start first. |
| Dispatch.CurrentAreFirst | apps/edge-api/app/hems/dispatcher.py:57-64 | At planning time the current intervals are exactly the step-0 interval of every asset, in order. |
| Dispatch.ClampKeepsPlannedCommand | apps/edge-api/app/hems/dispatcher.py:19-54 | For every asset with a contract and every assignment that meets its constraints, the rounded planned command lies in the rounded contract bounds: the clamp changes nothing. |
| Dispatch.ClampBounds | apps/edge-api/app/hems/dispatcher.py:19-54 | Whatever the command, the clamp leaves a number inside the contract's bounds, keeps one that already is, and gives a switch contract a switch. |
| Dispatch.ClampWithoutContract | apps/edge-api/app/hems/dispatcher.py:34-54 | Without a contract a number is held to the range of its device. |
| Dispatch.DispatchCurrent | apps/edge-api/app/hems/dispatcher.py:67-151 | One record per current interval whose asset is known, and one report per other current interval, naming its key, both in order. |
| Dispatch.RecordedOrReported | apps/edge-api/app/hems/dispatcher.py:67-151 | Each current interval with a known asset has its record and there is no other record; a key is reported exactly when it is current and unknown. |
| Dispatch.RecordFollowsMode | apps/edge-api/app/hems/dispatcher.py:98-149 | Nothing is applied outside guarded automation or without an adapter; inside it the adapter's reply decides the status, and what it applied or else the clamped command is recorded. |
| Dispatch.ReplanCommandSurvivesClamp | apps/edge-api/app/hems/dispatcher.py:19-54 | The same for every asset that was assessed as dispatchable, in every feasible replan. |
| Dispatch.ReplanCommands | apps/edge-api/app/hems/planner.py:321-465 | In every feasible replan every command of every step says what the balance counted for its asset. |
| Dispatch.ReplanDispatchesEachAssetOnce | apps/edge-api/app/hems/dispatcher.py:67-151 | A replan dispatches every asset assessed as dispatchable exactly once and in order, for the step now falls in, with a command that says what the balance counted, unclamped; outside guarded automation nothing is applied. |
| ToolNames.FindSuffix | apps/edge-api/app/agent/provider.py:466-474 | The suffix search ends with the least unused suffix, and that is bounded by the number of used names. |
| ToolNames.TriedFit | apps/edge-api/app/agent/provider.py:466-474 | Suffixed names already in use never outnumber the used names. |
| ToolNames.ProviderToolNameMap | apps/edge-api/app/agent/provider.py:456-476 | Every non-blank tool gets its own external name; names are distinct and of allowed characters, each is the plain name or a suffixed form of its first 58 characters, and only a suffix of more than five digits exceeds 64. |
| ToolNames.ProviderNameForTool | apps/edge-api/app/agent/provider.py:479-483 | Returns the first external name mapped to the canonical name; a name outside the map is only sanitized. |
| ToolNames.RoundTrip | apps/edge-api/app/agent/provider.py:456-483 | A listed tool is found again under its external name exactly when its name is not blank and trimmed; whatever is found under an untrimmed name's external name is another listed tool. |
| ToolNames.AnotherToolAnswers | apps/edge-api/app/agent/provider.py:456-483 | It occurs: among " x" and "__x" the first is sanitized to the name of the second. |
| ToolNames.CanonicalsAreStripped | apps/edge-api/app/agent/provider.py:460-465 | The mapped names are exactly the trimmed non-blank ones, in order. |
| ToolNames.SanitizedKeeps | apps/edge-api/app/agent/provider.py:456-457 | A name is used as it is exactly when all its characters are allowed; every other character takes one place more. |
| ToolNames.SanitizedReplaces | apps/edge-api/app/agent/provider.py:456-457 | A disallowed character becomes two underscores, and all around it is kept. |
| ToolNames.NameIsPrefix | apps/edge-api/app/agent/provider.py:456-457 | The external name is the sanitized one, cut to 64 characters when it is longer. |
| ToolNames.AllowedCharacters | apps/edge-api/app/agent/provider.py:456-457 | Allowed are letters, digits, underscore and dash. |
| TextStream.StreamText | apps/edge-api/app/agent/service.py:531-549 | The chunks give the text back exactly when it does not start with a space and no double space inside meets a chunk of 48 characters; otherwise only spaces are missing. Each chunk has at most 49 characters or is one word with at most one space, and no two neighbours would have fitted into one. |
| TextStream.EmptyChunkIff | apps/edge-api/app/agent/service.py:537-546 | A chunk is empty exactly after an empty word that met an empty chunk or one of at least 48 characters. |
| TextStream.LosesIff | apps/edge-api/app/agent/service.py:531-549 | A space is lost exactly when the text starts with one or an inner double space meets a chunk of at least 48 characters. |
| TextStream.DoubleSpaceIsLost | apps/edge-api/app/agent/service.py:531-549 | It occurs after every word of at least 48 characters that two spaces follow. |
| TextStream.StreamShort | apps/edge-api/app/agent/service.py:531-549 | Text of fewer than 50 characters without a leading space comes back unchanged, double spaces included. |
| TextStream.StreamSingleSpaced | apps/edge-api/app/agent/service.py:531-549 | Text without leading space and double spaces is given back unchanged. |
| TextStream.LeadingSpaceIsLost | apps/edge-api/app/agent/service.py:531-549 | Text that starts with a space always loses at least one. |
| AgentTrace.RequestsAreBounded | apps/edge-api/app/agent/runtime.py:70-152 | At most one model request more than the tool iterations; the extra one is forced final and offers no tools. |
| AgentTrace.StartFollowsValidation | apps/edge-api/app/agent/runtime.py:236-375 | A tool starts only right after its call was validated: it exists, is available in the turn's mode, and does not need a decision of the user unless it prepares a binding. |
| AgentTrace.ToolsAreClosedBeforeRequests | apps/edge-api/app/agent/runtime.py:263-375 | Before every event but a tool's own success or failure, each started tool has been closed exactly once; never is more than one open. |
| AgentTrace.StartIsClosedAtOnce | apps/edge-api/app/agent/runtime.py:263-375 | The event after a tool's start is that same tool's success or failure, and each of those follows its own tool's start. |
| AgentRun.Runtime.Run | apps/edge-api/app/agent/runtime.py:70-152 | For any replies and tool results the trace follows the grammar, the outcome is the one the replies determine, and the stored rows are extended by the trace. |
| AgentRun.OutcomeIsFirstReply | apps/edge-api/app/agent/runtime.py:70-152 | How a turn ends is decided by the first reply that is not a tool call, and by whether it came within the iterations. |
| AgentRun.Runtime.ExecuteToolCall | apps/edge-api/app/agent/runtime.py:263-375 | Keeps all earlier events and adds exactly: the start, one success or failure, what the tool came back with, and the observation. |
| AgentRun.SuccessReports | apps/edge-api/app/agent/runtime.py:263-375 | A success reports UI events when there are any and each proposal and each decision once, and its observation last. |
| AgentRun.Runtime.NextEventIndex | apps/edge-api/app/agent/service.py:467-470 | The next index is past every stored one, and continues a contiguous log. |
| AgentRun.Runtime.Record | apps/edge-api/app/agent/service.py:473-489 | Storing an event keeps stored indices contiguous from zero. |
| EndpointProperties.MergeRuntimeProperties | apps/edge-api/app/home_graph/service.py:141-157 | The two key loops fill the observed properties with the kept runtime and TLS entries, and with nothing else. |
| EndpointProperties.FilledRuntimePart | apps/edge-api/app/home_graph/service.py:141-145 | A merge keeps every truthy runtime property, replaced only by a truthy one. |
| EndpointProperties.FilledTlsPart | apps/edge-api/app/home_graph/service.py:147-157 | A merge keeps every non-null TLS entry, replaced only by a non-null one. |
| EndpointProperties.MergedWithSelf | apps/edge-api/app/home_graph/service.py:141-157 | Merging properties with themselves only drops an explicit null TLS probe. |
| EndpointProperties.UnsetIff | apps/edge-api/app/home_graph/service.py:141-145 | The values that do not count as set are null, false, zero and the empty text, list and object. |
| EndpointProperties.HasRuntimeStateIff | apps/edge-api/app/home_graph/service.py:160-165 | An endpoint holds runtime state exactly when a runtime property is set or a known TLS entry is not null. |
| HomeGraph.Graph.UpsertEndpoint | apps/edge-api/app/home_graph/service.py:100-138 | In place: one endpoint gets the observed fields, keeps a connected or disconnected status, and has its properties merged; no other endpoint changes. |
| HomeGraph.SameEndpointIff | apps/edge-api/app/home_graph/service.py:114 | Two observations are of one endpoint exactly when owner, protocol, service, host and port agree, if protocol, service and host have no colon. |
| HomeGraph.SamePortIff | apps/edge-api/app/home_graph/service.py:114 | A missing port counts as port zero; other ports differ. |
| HomeGraph.CleanEntries | apps/edge-api/app/home_graph/service.py:126-134 | The stored properties are the observed ones with the observation's own source, time, confidence and host written over them. |
| HomeGraph.Graph.SyncInventory | apps/edge-api/app/home_graph/service.py:422-543 | In place: all observations are folded in, then every unobserved endpoint goes stale or is deleted. |
| HomeGraph.TrustSurvives | apps/edge-api/app/home_graph/service.py:100-165 | Across any sequence of syncs an endpoint with a truthy runtime property is never deleted and the property stays truthy. |
| HomeGraph.NonStaleAreObserved | apps/edge-api/app/home_graph/service.py:422-543 | After a sync the endpoints that are not stale are exactly the observed ones; a connected or disconnected status survives; others stay only with runtime state. |
| HomeGraph.SyncIsIdempotentIff | apps/edge-api/app/home_graph/service.py:422-543 | Syncing the same inventory twice is syncing it once exactly when no endpoint without earlier properties was observed once with an explicit null TLS probe. |
| HomeGraph.SyncSettles | apps/edge-api/app/home_graph/service.py:422-543 | From the second sync of an inventory on nothing changes. |
| HomeGraph.NullProbeIsDroppedLater | apps/edge-api/app/home_graph/service.py:141-157 | The exception occurs for a new endpoint observed with nothing but a null probe. |
| CanvasLayout.AcceptedRectsForPoints | apps/web-ui/src/App.tsx:522-535 | Cards are accepted exactly when all padded rectangles are in bounds, clear of the occupied ones and pairwise disjoint. |
| CanvasLaws.CardsCollideIff | apps/web-ui/src/App.tsx:491-502 | Two cards collide exactly when their centres are less than 206 and 138 apart. |
| CanvasLaws.HomeCollidesIff | apps/web-ui/src/App.tsx:491-502 | A card collides with the home card exactly when its centre is less than 226 and 182 from the middle. |
| CanvasLaws.InBoundsIff | apps/web-ui/src/App.tsx:491-506 | A card is in bounds exactly when half a card, half a gap and the padding fit beside its centre. |
| CanvasLayout.FirstFitIsExact | apps/web-ui/src/App.tsx:553-568 | A ring is found exactly when one of the tried phases fits, and what is found has all its cards and fits. |
| CanvasLaws.RingIsEven | apps/web-ui/src/App.tsx:512-520 | The cards of a ring are spaced evenly over the circle, starting at the phase. |
| CanvasLaws.FirstCardOnTop | apps/web-ui/src/App.tsx:537-551 | The first ring tried starts at the top. |
| CanvasLaws.PhasesWithinSlot | apps/web-ui/src/App.tsx:537-551 | Further phases turn the ring back by half a slot and on through less than one. |
| CanvasLayout.BuildOuterFirstRingPoints | apps/web-ui/src/App.tsx:570-665 | The search equals: all cards on the outer ring, or the split with most cards outside, or all on the inner ring, which is all the final filling pass can add. |
| CanvasLayout.OuterFirstIff | apps/web-ui/src/App.tsx:570-665 | The two-ring search fails exactly when the cards fit on neither ring alone and no split works. |
| CanvasLayout.FirstSplitIsLargest | apps/web-ui/src/App.tsx:595-632 | A split is found exactly when one works, and it is the working one with the most cards on the outer ring. |
| CanvasLayout.BuildCanvasPointsForSize | apps/web-ui/src/App.tsx:667-708 | The planned rings, or one round ring, for the radii the size allows; no cards need no placing. |
| CanvasLaws.FirstRingClearsHome | apps/web-ui/src/App.tsx:682-683 | A card as far out as the closest ring on either axis clears the home card. |
| CanvasLaws.RingsAreNested | apps/web-ui/src/App.tsx:579-582 | The inner ring lies between the closest and the outer one and that within the largest, at 38 and 94 percent. |
| CanvasLaws.RadiiFitCanvas | apps/web-ui/src/App.tsx:680-685 | No ring is larger than 540 or than the canvas allows. |
| CanvasLayout.LayoutIsPacking | apps/web-ui/src/App.tsx:522-708 | Every layout has exactly the requested cards, pairwise disjoint with their gaps, inside the padded canvas and clear of the home card, for any sine and cosine. |
| CanvasLayout.LayoutSettles | apps/web-ui/src/App.tsx:667-708 | With sine and cosine between -1 and 1: from the size where the largest rings are in bounds, the layout no longer depends on the size. |
| CanvasCapacity.LayoutHasCapacity | apps/web-ui/src/App.tsx:667-708 | With sine and cosine between -1 and 1: more than 48 cards have no layout on any canvas. |
| CanvasCapacity.ApartAreFew | apps/web-ui/src/App.tsx:491-502 | At most 48 padded cards lie apart with their centres in the square of the largest rings. |
| CanvasWorkspace.MinimumTwoRingWorkspaceSize | apps/web-ui/src/App.tsx:710-757 | The result is the visible size if it admits a layout, else the first lowest-scored grid size that does, else the largest size. It never shrinks; it admits no layout for more than 48 cards; and for more than 16 cards or a wide visible area it admits one exactly when the visible or a grid size does. |
| CanvasWorkspace.WorkspaceAdmitsLayoutIff | apps/web-ui/src/App.tsx:710-757 | For more than 16 cards, or a visible width from 1332 on, the workspace admits a layout exactly when the visible size or some grid size does. |
| CanvasWorkspace.WiderSearchFindsNothingNew | apps/web-ui/src/App.tsx:710-757 | The part of the grid searched only for more than 16 cards admits a layout exactly when its first place does. |
| CanvasWorkspace.FailedSearchNeverFits | apps/web-ui/src/App.tsx:756-756 | Under the same condition, when no grid size is admitted the size taken instead has no layout either. |
| CanvasWorkspace.ManyCardsNeverFit | apps/web-ui/src/App.tsx:710-757 | For more than 48 cards neither the visible size nor any grid size nor the returned workspace has a layout. |
| CanvasWorkspace.WorkspaceIsDetermined | apps/web-ui/src/App.tsx:731-757 | The search result is unique: lowest score, first place among equals. |
| CanvasLaws.SmallerIsBetter | apps/web-ui/src/App.tsx:740-747 | Of two sizes of the same proportions the smaller one is never scored worse. |
| CanvasLaws.CloserProportionsAreBetter | apps/web-ui/src/App.tsx:740-747 | Of two sizes alike in overflow and area, the one closer to the visible proportions is scored better. |
| CanvasLaws.WeighedMonotone | apps/web-ui/src/App.tsx:740-747 | More overflow, area or distortion always scores worse. |
| CanvasLaws.WeightRates | apps/web-ui/src/App.tsx:740-747 | A pixel of the larger overflow scores 100000 beside its square, a thousand square pixels one, a thousandth of a proportion one. |
| CanvasLaws.AreaScales | apps/web-ui/src/App.tsx:743 | The area grows in proportion to width and to height. |
| CanvasLaws.AspectIs | apps/web-ui/src/App.tsx:744 | The aspect is the ratio of width to height. |

## Left out

- Network, SHIP/SPINE messages, TLS handshakes and certificates: a send is a step that comes back with two optional counters or an error.
- Database sessions, commits and queries: tables are sequences or maps; rows received at the same instant are listed in any order.
- Threads and sleeps: each locked region or await-free stretch is one atomic step; joining and restarting the server thread is represented by the directions it is restarted with.
- Connection snapshots' descriptive fields (host, port, SHIP id, trace path, diagnostics) and the forwarding of limits to the runtime.
- The detail texts and raw payloads of delivery updates, and the per-device last-seen times touched by a new limit.
- Unicode: case folding and whitespace are ASCII, string order is by code point.
- Floating point: shares, powers, energies and coordinates are exact reals, so accumulated rounding error is not modelled; solver tolerances are not either.
- Dividing by zero: a battery without capacity, a step of zero minutes and a negative iteration limit are not modelled, as the program divides by them or never runs with them.
- Solving the optimization problem; the objective's terms are modelled, the choice among optimal plans is not.
- Tool payloads, prompts and the model's free text: the agent's turn is seen through the kinds of replies and events.
- Clustering keeps candidates and key sets in two parallel lists; the model keeps each cluster as one pair. Candidates are known to it by their position.
- Endpoint ids are hashes of a text; the text itself is the id here, so hash collisions are not modelled.
- ConnectionRegistry.RunIsConsistent: covers runs whose events name registered endpoints; what other events can break is stated by ConnectionRegistry.StartIsSafeIff and StrangerRun.
- CanvasWorkspace.WorkspaceAdmitsLayoutIff: for at most 16 cards on a visible width below 1332, and for a visible area without height, whether the size taken after a failed search fits is not decided; it depends on the values of sine and cosine, which are parameters.
- Home-graph entities, relationships and evidence rows, deriving endpoint observations from device evidence, and update times.
- Telemetry values and most evidence entries are opaque strings in reconciliation.
- Device removal, connection-state display, classification tables, HTTP and MQTT probing, forecasting curves other than the default prices, and everything of the user interface but the layout.
- The layout's loops over counts below zero; a count of zero or less places nothing.
