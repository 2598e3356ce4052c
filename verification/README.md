# Decision-making state of the CloudBridge client

A Dafny model of the parts of the client that decide: which path a session
uses and when it fails over, which peer a mesh destination is routed to, when
a controller may switch paths, and the bookkeeping around them (tunnel
buffers, error tracker, heartbeat backoff, retry budget). `dafny verify
dfyconfig.toml` checks all of it.

Code that changes objects step by step is modelled as classes whose methods
are tied to a function (or, where map iteration order matters, a relation) on
snapshots of those objects. The results are then lemmas about those functions
and about whole runs of them.

| file in `src/` | what it holds |
|---|---|
| `Wrappers`, `Durations`, `Spacing`, `Chains`, `SwitchTiming` | shared vocabulary: options, durations, events kept apart, chains of falling costs, the fading penalty |
| `Transports`, `Sessions`, `PathConfig`, `Selector` | the network seen by the selector, the session state machine, the configuration, and `Ensure` / `HealthTick` |
| `LadderFacts`, `SelectorRuns`, `SelectorTheorems`, `Failovers`, `Timeouts` | what one ladder does, what every run keeps, and the main results on path selection, failover and the time calls are given |
| `SharedSelector`, `SharedRuns` | several sessions on one selector |
| `Mesh`, `MeshRuns`, `MeshOwners`, `MeshPeers`, `MeshRemoval` | the three routing maps, and what every history of operations makes of them |
| `Handover`, `Slo`, `AutoSwitch` | the three anti-flapping controllers |
| `BufferPool`, `Buffers`, `TunnelCopy` | the buffer pool with its users, the pool on the heap, and the copy loop that borrows from it |
| `ErrorTracking`, `ErrorHistories`, `ErrorCounts`, `RecentErrors` | the error tracker and what it shows after any history of reports |
| `Heartbeat`, `HeartbeatRuns` | the heartbeat manager, and what every interleaving of its operations makes of it |
| `Retry` | error classification and the retry strategy |

The outside world is a parameter. Every probe, open, health check and random
draw is answered by an arbitrary function of the call, so each result holds
for every environment; the clock moves only as far as those answers and
explicit waits move it and never backwards. Floating point is `real`,
durations are integers in nanoseconds, and CIDR membership is an arbitrary
predicate.

## What the model found

- `HealthTick` re-ladders with a request that carries no metadata, so it can
  fail over to a path exactly if that is a registered candidate that needs no
  token (`FailoverReachable`). With the two production adapters and hard
  failure every failover therefore leads from `relay_quic` to `grpc_tunnel`
  (`TunnelCannotFailOver`), although
  `docs/plans/GAP_CLOSURE_AND_IMPROVEMENTS.md` plans for tunnel-to-QUIC
  failover.
- Sessions that share a selector close each other's transports, because the
  adapters' slots are shared: each path carries at most one connected session
  (`OneSessionPerPath`). `WhoCanCutOff` gives the exact guard for every
  operation, `EnsureInterferenceStable` and `HealthInterferenceStable` what
  happens on a stable network, `SessionCutOff` a history. A session that was
  cut off stays selected and closed as long as its path's probe succeeds
  (`StaysCutOff`, `ProbeHidesCutOff`).
- Rerouting leaves the owner index alone, so removing a stand-in peer leaves a
  route through it exactly if some destination that it does not own had been
  rerouted to it (`RemovalDanglesExactly`, with a history in
  `DanglingRouteExists`), and no reroute repairs it (`DanglingLastsExactly`).
- An upsert that shortens a peer's list leaves the dropped destinations owned
  by and routed to the peer (`OwnersAdvertiseExactly`, `AbandonedStays`).
- The mesh tables stay in step exactly as long as no peer advertises the ID of
  another present one (`OwnIdsExactly`, `InStepExactly`); `ClashHistory` is a
  history in which one does.
- The SLO threshold is documented as a percentage (`pkg/slo/controller.go:46`)
  but is divided by 100 once too often: `WhenRecommended` gives the exact
  condition, `TenPercentIsNotRequired` a switch for one percent.
- `NextHealthy` leaves a registered mode only for a faster one, healthy or
  not, and the latency of a mode that is down reads zero: such a mode is never
  left (`DeadModeStays`; `StuckExactly` gives the exact readings).
- The heartbeat's doubling overflows exactly for bases of 2^62 ns and more;
  the backoff then drops to one second (`BackoffExactly`, `OverflowCollapses`).
- Disconnections count as failures but only a heartbeat failure stops the
  manager (`RunsExactly`, `DisconnectsNeverStop`).
- A second return of a buffer lets it go to two users exactly if there is room
  for it while it is pooled or in use again (`ApartExactly`, `ApartMeans`;
  histories in `SecondReturnBreaks` and `SecondReturnHarmless`).
- An evicted error restarts at one (`ReportedCount`, `EvictedRestarts`), and
  two error types share counters exactly if one, followed by a colon, is a
  prefix of the other (`KeysCollideExactly`, `CountsAreTrueExactly`).
- The error count of the last minute adds up lifetime counts: it is too high
  as soon as one error was reported both before and within that minute
  (`RecentCountExactly`).

## Model

| member | source | states |
|---|---|---|
| PathConfig.Config.Normalize | pkg/pathselect/config.go:31-49 | Any configuration becomes usable; every field that is set is kept, each other one gets its default: relay_quic then grpc_tunnel, 5 s, 45 s, 10 s, 15 s |
| Sessions.ClosedIsAbsorbing | pkg/pathselect/session.go:10-56 | No sequence of transition requests leaves the closed state |
| Sessions.OnlyClosedIsAbsorbing | pkg/pathselect/session.go:10-56 | Every other state has a request that moves it |
| Sessions.MovesExactly | pkg/pathselect/session.go:10-79 | For every target the states from which a request moves there, and no others; an unset session moves as an idle one |
| Sessions.Session.Transition | pkg/pathselect/session.go:58-79 | Succeeds exactly for the state itself and its allowed edges; a refusal keeps the state, except that an unset one becomes idle |
| Sessions.Session.ClearActive | pkg/pathselect/session.go:93-103 | Drops handle and path and closes just the session behind the handle |
| Transports.TransportPath.Probe | pkg/pathselect/relay_quic_path.go:78-83 | One network call under its deadline; slots and sessions are untouched |
| Transports.TransportPath.Open | pkg/pathselect/relay_quic_path.go:85-105 | A missing token or a failed dial leaves slot and sessions alone; a dial yields a fresh open session, takes the slot and closes the slot's previous session |
| Transports.TransportPath.Close | pkg/pathselect/grpc_tunnel_path.go:122-134 | Empties the slot and closes the session it held, if any |
| Selector.LadderSelector.constructor | pkg/pathselect/selector.go:18-28 | Nil paths are skipped, the registered names are those given, and of two paths with one name the later wins |
| Selector.LadderSelector.Enter | pkg/pathselect/selector.go:49-66 | Reaches probing or reports failure; each transition whose error the source discards succeeds |
| Selector.LadderSelector.TryRung | pkg/pathselect/selector.go:79-93 | One rung on the heap does what the rung function does on the snapshot |
| Selector.LadderSelector.ClimbForEnsure | pkg/pathselect/selector.go:71-105 | The loop over the order computes the ladder function, from any state of network and slots |
| Selector.LadderSelector.ClimbForFailover | pkg/pathselect/selector.go:172-207 | The same for HealthTick's own loop and its own ladder function |
| Selector.LadderSelector.Adopt | pkg/pathselect/selector.go:95-103 | The new handle is active, the superseded session closed, the selection counted, and the discarded transition succeeds |
| Selector.LadderSelector.Ensure | pkg/pathselect/selector.go:32-114 | The whole new state of session, network, slots and counters, and the result, are those of the Ensure function |
| Selector.LadderSelector.HealthTick | pkg/pathselect/selector.go:117-216 | The same for the HealthTick function |
| LadderFacts.LadderEffect | pkg/pathselect/selector.go:72-113 | A lost ladder leaves every slot and session as it was and has an error to show; a won one opens exactly one fresh session, in the winner's slot, closing only what that slot held |
| LadderFacts.HealthLadderIsEnsureLadder | pkg/pathselect/selector.go:173-207 | From any state the two hand-inlined loops make the same calls and the same choice: HealthTick's equals Ensure's on the order without the active path (on the whole order when soft) with an empty token |
| LadderFacts.LadderCalls | pkg/pathselect/selector.go:72-105 | The probes are those of the registered rungs up to the winner and none after, each open directly follows its successful probe, and only the last can succeed |
| LadderFacts.LadderPicksFirstHealthy | pkg/pathselect/selector.go:72-105 | If answers depend on the call alone, the winner is the first registered rung that probes and opens, and there is none only if no rung does |
| LadderFacts.LadderReaches | pkg/pathselect/selector.go:72-105 | Every registered rung of the order can win if it needs no token or the ladder has one |
| LadderFacts.LadderTime | pkg/pathselect/selector.go:68-105 | If calls respect their deadlines the ladder ends by its deadline and within two probe timeouts per rung |
| SelectorRuns.NewClient | pkg/pathselect/config_from_types.go:19-25 | A selector built from a client configuration and a new session satisfy the condition on initial worlds, with the two production adapters, or with none if there is no configuration |
| SelectorRuns.StepSound | pkg/pathselect/selector.go:32-216 | Each of Ensure, HealthTick, ClearActive and waiting keeps ownership, labels and pacing of the session |
| SelectorRuns.RunSound | pkg/pathselect/selector.go:32-216 | Hence every interleaving of them does |
| SelectorTheorems.OneOpenSession | pkg/pathselect/selector.go:95-104 | In every run the open sessions are exactly the one behind the active handle; a slot is empty, closed or that one; without ClearActive a selected or degraded session has its transport open |
| SelectorTheorems.ActivePathIsGenuine | pkg/pathselect/selector.go:128-138 | In every run a non-empty active path is registered, in the order and the handle's own, so the not-registered branch is never taken; degraded and failed have an error |
| SelectorTheorems.FailedEnsureKeepsActive | pkg/pathselect/selector.go:107-113 | An Ensure that opens nothing closes nothing and keeps handle and path |
| SharedSelector.EnsureInterference | pkg/pathselect/relay_quic_path.go:98-103 | On some network an Ensure closes another session's transport exactly if it runs its ladder, that session's path is in the order and Ensure has a token or the path needs none; otherwise the other is safe on every network |
| SharedSelector.EnsureInterferenceStable | pkg/pathselect/relay_quic_path.go:98-103 | If answers depend on the call alone it does so exactly if that path is the first healthy rung |
| SharedSelector.HealthInterference | pkg/pathselect/relay_quic_path.go:98-103 | The same for HealthTick: exactly if it acts and that path is a registered candidate that needs no token |
| SharedSelector.HealthInterferenceStable | pkg/pathselect/relay_quic_path.go:98-103 | If answers depend on the call alone, exactly if it runs its ladder and that path is the first healthy candidate |
| SharedRuns.OneSessionPerPath | pkg/pathselect/grpc_tunnel_path.go:107-119 | However many sessions share a selector, in every interleaving connected sessions have different paths, every open transport is some session's own, and there are never more than registered paths |
| SharedRuns.WhoCanCutOff | pkg/pathselect/relay_quic_path.go:98-103 | At every point of every such run an operation of one session can close a connected other's transport exactly under the two guards above; waiting and ClearActive never do |
| SharedRuns.SessionCutOff | pkg/pathselect/selector.go:172-203 | A history with the production adapters: when relay_quic goes down its session fails over to the tunnel and cuts off the session there, which stays selected |
| SharedRuns.StaysCutOff | pkg/pathselect/relay_quic_path.go:98-103 | A session without an open transport stays without through every interleaving in which it does not dial itself |
| SharedRuns.ProbeHidesCutOff | pkg/pathselect/selector.go:140-151 | Its HealthTick reports health and keeps it selected as long as the path's probe succeeds |
| SelectorTheorems.FailoverPacing | pkg/pathselect/selector.go:153-156 | In every run the i-th and j-th failovers are (j - i) cooldowns apart, a window of length T holds at most 1 + T / cooldown, the failover counter is their number and the selection counter the number of opened sessions |
| Failovers.FailoverReachable | pkg/pathselect/selector.go:158-207 | There is a network on which HealthTick fails over to a path exactly if it acts and the path is a registered candidate that needs no token |
| Failovers.FailoverTarget | pkg/pathselect/selector.go:161-177 | In every run every failover is made by a HealthTick and leads to such a path, under hard failure not the failed one |
| Failovers.TunnelCannotFailOver | pkg/pathselect/selector.go:161-177 | With the two production adapters and hard failure every failover of every run leaves relay_quic for grpc_tunnel |
| Failovers.TunnelIsKept | pkg/pathselect/selector.go:161-177 | There a HealthTick on the tunnel keeps path, handle, slots and sessions whatever fails |
| SelectorTheorems.EnsureEndState | pkg/pathselect/selector.go:49-66 | Refused exactly from unset, handing over and closed, without touching network or slots; otherwise ends selected with the handle and no error, or failed with the reported error, and moves exactly the matching counter |
| SelectorTheorems.HealthEndState | pkg/pathselect/selector.go:128-215 | Acting ends selected, degraded or failed exactly as the result says, with the reported error and the matching counters; unless it selects another path, sessions, slots and handle are as before |
| SelectorTheorems.EnsureBlames | pkg/pathselect/selector.go:73-113 | A failed Ensure reports the last rung of the order: as not registered, or with the error of the probe or open that ends the call log |
| SelectorTheorems.HealthBlames | pkg/pathselect/selector.go:148-215 | A failed HealthTick reports the error of the last call it made |
| SelectorTheorems.ClosedRun | pkg/pathselect/selector.go:62-66 | A closed session stays closed in every run and causes no further call and no count |
| SelectorTheorems.EnsureCalls | pkg/pathselect/selector.go:72-105 | For every environment the adapter calls of Ensure are those of the ladder up to its winner |
| SelectorTheorems.FailoverCalls | pkg/pathselect/selector.go:173-207 | The calls of a failover are those of a ladder over the candidate rungs |
| SelectorTheorems.EnsurePicksFirstHealthy | pkg/pathselect/selector.go:30-31 | On a stable network Ensure opens the first healthy rung and fails only if there is none |
| Timeouts.EnsureMeetsNeeds | pkg/pathselect/selector.go:68-113 | On a network whose calls succeed exactly if given the time their kind and path need, and with time for the whole order, Ensure opens the first registered rung that meets its token rule and needs at most a probe timeout for its probe and for its open; it fails exactly if there is none |
| Timeouts.EnsureCallsExactly | pkg/pathselect/selector.go:36-93 | Ensure calls an adapter exactly if it is enabled, not refused, and some rung of its order is registered |
| SelectorTheorems.FailoverPicksFirstHealthy | pkg/pathselect/selector.go:173-207 | The same for a failover over the candidate rungs |
| Timeouts.ProbeFailsExactly | pkg/pathselect/selector.go:140-148 | HealthTick's first call is the probe of the active path, which fails exactly if it needs more than the probe timeout cut by the caller's deadline |
| Timeouts.HealthyByNeed | pkg/pathselect/selector.go:140-151 | If the active path's probe is given the time it needs, HealthTick selects it again and changes nothing but clock and call log |
| Timeouts.CoolingByNeed | pkg/pathselect/selector.go:148-156 | If it is not, within the cooldown, the session is degraded and keeps path, handle and slots |
| Timeouts.HealthMeetsNeeds | pkg/pathselect/selector.go:158-215 | If it is not, after the cooldown and with time for the whole order, HealthTick moves to the first registered rung that needs no token, is answered within the probe timeout and, under hard failure, is another one; it fails exactly if there is none |
| Timeouts.HealthCallsExactly | pkg/pathselect/selector.go:117-140 | HealthTick calls an adapter exactly if it is enabled and the session is selected or degraded on a registered path |
| SelectorTheorems.EnsureTime | pkg/pathselect/selector.go:68-105 | With calls that respect their deadlines Ensure takes at most min(ladder timeout, 2 * rungs * probe timeout), and no longer than the caller's deadline |
| SelectorTheorems.HealthTime | pkg/pathselect/selector.go:140-207 | HealthTick takes at most one probe timeout more than that, and no longer than the caller's deadline |
| Mesh.MeshNetwork.UpdateRoutingForPeer | pkg/p2p/mesh.go:311-329 | The loop leaves all three maps as one simultaneous update of the peer's ID and allowed IPs |
| Mesh.MeshNetwork.AddPeer | pkg/p2p/mesh.go:154-170 | Peers and tables become those of the add function |
| Mesh.MeshNetwork.UpsertPeer | pkg/p2p/mesh.go:181-209 | The same for an upsert: known peers are merged in place, new ones stored, even if the argument is the stored object |
| Mesh.MeshNetwork.UpdatePeerLatency | pkg/p2p/mesh.go:212-223 | A known peer's latency changes in both places, an unknown one changes nothing |
| Mesh.MeshNetwork.RemovePeer | pkg/p2p/mesh.go:226-238 | Fails exactly for unknown peers; otherwise drops the peer, its ID and all it owns |
| Mesh.MeshNetwork.RemoveRoutingForPeer | pkg/p2p/mesh.go:332-351 | Deleting while iterating, in any order, removes exactly the ID and the owned destinations from all three maps |
| Mesh.MeshNetwork.UpdateTopology | pkg/p2p/mesh.go:399-418 | Exactly the stale peers are disconnected, in any iteration order |
| Mesh.MeshNetwork.FindAlternativeRoute | pkg/p2p/mesh.go:486-504 | Some valid stand-in is returned whenever one exists |
| Mesh.MeshNetwork.UpdateRouting | pkg/p2p/mesh.go:421-442 | One pass, for any iteration orders, is a step of the reroute relation |
| MeshRuns.TablesStayInStep | pkg/p2p/mesh.go:154-238 | In every history owners and routes cover the same keys, every owner is present and every route has one hop; without a clash so far all three maps have one key set and each peer owns its ID at its own latency; without reroutes each route is its owner |
| MeshRuns.OwnIdsExactly | pkg/p2p/mesh.go:311-351 | Every peer owns its own ID throughout a history exactly if no add or upsert in it stored a peer that advertises the ID of another present one |
| MeshRuns.OneKeySetExactly | pkg/p2p/mesh.go:212-223 | The three maps keep one key set throughout exactly if no latency was set for a known peer whose ID had lost its route |
| MeshRuns.InStepExactly | pkg/p2p/mesh.go:154-238 | All of this holds throughout exactly if there was no clash |
| MeshRuns.SeparatedNeverClashes | pkg/p2p/mesh.go:311-329 | There is none if IDs and allowed IPs are different strings |
| MeshRuns.ClashHistory | pkg/p2p/mesh.go:311-351 | A history with a clash in which a peer loses its ID and then the maps their common key set |
| MeshOwners.OwnerIndexIsHistory | pkg/p2p/mesh.go:311-351 | After every history a peer owns a destination exactly if it advertised it, nobody has since, and neither it nor a peer named like the destination was removed since; without a clash so far the last proviso is not needed |
| MeshOwners.OwnersAdvertiseExactly | pkg/p2p/mesh.go:181-209 | Every owned destination is advertised by its owner throughout a history exactly if no add or upsert in it stored a peer without a destination that the peer owned |
| MeshOwners.AbandonedStays | pkg/p2p/mesh.go:196-201 | Such a destination keeps its owner and its route |
| MeshOwners.AbandonHistory | pkg/p2p/mesh.go:196-201 | A history in which an upsert shortens the list and the dropped destination stays routed to the peer |
| MeshPeers.PresentExactly | pkg/p2p/mesh.go:154-238 | After every history a peer is known exactly if it was added or upserted and not removed since |
| MeshPeers.FieldIsHistory | pkg/p2p/mesh.go:181-223 | After every history endpoint, key, allowed list, latency and last-seen time of a known peer are those of the last operation that reported them: an add or insertion always, an upsert of a known peer if the field carries something, a new latency |
| MeshPeers.ConnectedIsHistory | pkg/p2p/mesh.go:202-204 | A known peer is connected exactly if its last add or upsert said so and no topology update since then found it stale by the time of that operation |
| MeshPeers.LatencyTableIsHistory | pkg/p2p/mesh.go:311-329 | A latency in the table is that of the peer that last advertised the destination, or the last one set for it |
| MeshRuns.UpsertIsIdempotent | pkg/p2p/mesh.go:181-209 | Repeating an upsert changes nothing more |
| MeshRemoval.RemovalIsExact | pkg/p2p/mesh.go:331-348 | While the tables are in step and without reroutes a removal deletes exactly the routes through the peer |
| MeshRemoval.AddThenRemoveRestores | pkg/p2p/mesh.go:154-238 | Adding a peer with fresh keys and removing it restores every table |
| MeshRemoval.RemovalDanglesExactly | pkg/p2p/mesh.go:331-348 | After every history a removal leaves a route through the removed peer exactly if a destination other than its ID that it does not own had been routed to it |
| MeshRemoval.DanglingLastsExactly | pkg/p2p/mesh.go:421-442 | While that peer is absent the route stays exactly until somebody advertises the destination or a peer is removed that owns it or is named like it; rerouting never ends it |
| MeshRemoval.DanglingRouteExists | pkg/p2p/mesh.go:432-433 | A history that ends with such a route |
| MeshRemoval.ReroutingIsSound | pkg/p2p/mesh.go:421-442 | Every changed route goes to a connected peer that advertises the destination; one still via a disconnected peer has no stand-in |
| MeshRemoval.ReroutingExactly | pkg/p2p/mesh.go:421-442 | A pass replaces a route exactly if its first hop is known and not connected and another connected peer advertises the destination by name or by a block that contains it; the new route is one hop to such a peer |
| MeshRemoval.RoutesFollow | pkg/p2p/mesh.go:311-329 | Any other operation gives the destinations it advertises a one-hop route to the peer and keeps the rest |
| MeshRemoval.ReroutingSettles | pkg/p2p/mesh.go:421-442 | A second pass on the same topology changes nothing |
| SwitchTiming.PenaltyFades | pkg/handover/manager.go:214-222 | The penalty lies between 0 and 50 ms and never grows until the next switch |
| SwitchTiming.PenaltyGone | pkg/slo/controller.go:175-183 | It is zero exactly when its period is over |
| SwitchTiming.PenaltyIsLinear | pkg/slo/controller.go:175-183 | It falls in a straight line from 50 ms to zero over its period |
| Handover.HandoverManager.RecordSwitch | pkg/handover/manager.go:203-211 | Only the time of the last switch changes |
| Handover.CostWeighs | pkg/handover/manager.go:36-39 | A millisecond of delay or jitter costs one and so does a lost percent; parts of a millisecond cost nothing |
| Handover.WhenSwitched | pkg/handover/manager.go:171-200 | A switch is recommended exactly after the minimum interval, if there is one, and for a new path that costs, with what is left of the 50 ms, less than nine tenths of the old one |
| Handover.RecommendationStands | pkg/handover/manager.go:171-200 | For fixed paths a recommendation stands until the next recorded switch |
| Handover.GatesOnlyDelay | pkg/handover/manager.go:171-200 | A switch is recommended at some time exactly if the new path is ten percent cheaper |
| Handover.SwitchesApart | pkg/handover/manager.go:175-181 | Accepted and recorded switches are at least the minimum interval apart |
| Handover.HandoverSaves | pkg/handover/manager.go:183-190 | n > 0 accepted switches end below 0.9^n of the first cost |
| Handover.AcceptanceLowersCost | pkg/handover/manager.go:189-190 | The ten percent rule lowers every cost it accepts exactly if the old cost is not negative |
| Handover.HandoverNeverReturns | pkg/handover/manager.go:183-190 | Such a run never revisits a path and is shorter than their number |
| Slo.SLOController.Update | pkg/slo/controller.go:83-90 | Each filter remains the smoothing of all its samples |
| Slo.SLOController.RecordSwitch | pkg/slo/controller.go:142-149 | Only the time of the last switch changes |
| Slo.CostWeighs | pkg/slo/controller.go:168-172 | A millisecond of delay or jitter costs one and a lost percent ten |
| Slo.EmaClosedForm | pkg/slo/controller.go:88-90 | The filter equals the sum of alpha (1 - alpha)^(n-1-i) x_i |
| Slo.EmaStaysInHull | pkg/slo/controller.go:88-90 | It stays between the least and greatest of zero and the samples |
| Slo.EmaConverges | pkg/slo/controller.go:88-90 | On constant input the error is exactly (1 - alpha)^n of it |
| Slo.WhenRecommended | pkg/slo/controller.go:102-139 | A switch is recommended exactly after max(dwell, penalty) and for a cost at most (10000 - threshold) ten-thousandths of the current one |
| Slo.TenPercentIsNotRequired | pkg/slo/controller.go:60-60 | The default threshold of 10 accepts an improvement of one percent |
| Slo.RecommendationStands | pkg/slo/controller.go:102-139 | For fixed paths a recommendation stands until the next recorded switch |
| Slo.SwitchesApart | pkg/slo/controller.go:107-130 | Accepted and recorded switches are at least max(dwell, penalty) apart |
| Slo.SloSaves | pkg/slo/controller.go:152-166 | n accepted switches end at or below (1 - threshold / 10000)^n of the first cost |
| Slo.SloNeverReturns | pkg/slo/controller.go:152-166 | Such a run never revisits a path and is shorter than their number |
| AutoSwitch.AutoSwitchManager.NextHealthy | pkg/transport/auto_switch.go:95-122 | The loop moves to the first eligible mode or stays, whatever the readings of each step |
| AutoSwitch.AutoSwitchManager.ForceSwitch | pkg/transport/auto_switch.go:165-175 | Mode and time are set, nothing else |
| AutoSwitch.SwitchExactly | pkg/transport/auto_switch.go:95-157 | A call switches exactly if the current mode is unregistered, not ok, or has had its cooldown and dwell time, and another registered mode of the order is ok and, unless the current one is unregistered, below nine tenths of its latency; it goes to the first such mode at the time it is found |
| AutoSwitch.HealthyLeavesApart | pkg/transport/auto_switch.go:95-133 | In every sequence of calls the i-th and j-th departures from a healthy mode are (j - i) times max(cooldown, dwell) apart, and a window of length T sees at most 1 + T / max(cooldown, dwell) |
| AutoSwitch.UnhealthyModeCanStay | pkg/transport/auto_switch.go:109-109 | A registered mode that no candidate beats by ten percent is never left by any sequence of calls, whichever modes are healthy |
| AutoSwitch.DeadModeStays | pkg/transport/auto_switch.go:234-250 | In particular one whose latency reads zero, as it does when its request fails |
| AutoSwitch.StuckExactly | pkg/transport/auto_switch.go:146-157 | With a constant reading a registered mode can be left exactly if the reading is at least 2 ns and another registered mode is in the order |
| AutoSwitch.SwitchingSaves | pkg/transport/auto_switch.go:146-157 | n > 0 switches at fixed latencies end below 0.9^n of the first |
| AutoSwitch.SwitchingNeverReturns | pkg/transport/auto_switch.go:146-157 | They never return to a mode and are fewer than the configured modes |
| Buffers.NewBufferManager | pkg/tunnel/manager.go:21-34 | A full pool of distinct zeroed buffers, none handed out; a panic exactly for a negative capacity, or a negative buffer size with a capacity |
| Buffers.BufferManager.GetBuffer | pkg/tunnel/manager.go:37-45 | The oldest pooled buffer, or a new one if the pool is empty, goes out under a new ticket, zeroed if the pool was clean and with no other user if the users were apart; a panic exactly if a new one has negative size |
| Buffers.BufferManager.ReturnBuffer | pkg/tunnel/manager.go:48-60 | The buffer is zeroed and kept if there is room; every buffer keeps one user exactly if this is not a second return, or one of a foreign buffer, with room for it while the buffer is pooled or in use |
| BufferPool.ApartExactly | pkg/tunnel/manager.go:36-60 | In every interleaving no buffer ever has two users exactly if no operation is such a return |
| BufferPool.ApartMeans | pkg/tunnel/manager.go:37-45 | That no buffer has two users means that no number of further Gets hands out one that is in use, or one twice |
| BufferPool.PoolConserves | pkg/tunnel/manager.go:36-60 | In every interleaving, whatever comes back and how often, pooled <= capacity <= pooled + handed out and the pool is full when all are back; if each buffer comes back at most once none ever has two users |
| BufferPool.SecondReturnBreaks | pkg/tunnel/manager.go:48-60 | A history whose second return of a buffer puts it in the pool while another user has it, and the next Get hands it out again |
| BufferPool.SecondReturnHarmless | pkg/tunnel/manager.go:54-59 | A history whose second return with room is harmless, because the first was dropped |
| TunnelCopy.Copy | pkg/tunnel/manager.go:360-377 | One direction forwards the function of its reads, counts exactly the bytes written and leaves the pool clean, with its buffer back and every buffer with one user |
| TunnelCopy.ForwardedIsPrefix | pkg/tunnel/manager.go:363-375 | The peer receives a prefix of what was read, unchanged and in order, and all of it if nothing fails |
| TunnelCopy.ForwardedExactly | pkg/tunnel/manager.go:363-375 | Exactly the reads before the first that fails, or whose write does, reach the peer |
| ErrorTracking.ErrorTracker.AddError | pkg/heartbeat/payload.go:250-281 | List and counters become those of the add function |
| ErrorTracking.ErrorTracker.GetRecentErrors | pkg/heartbeat/payload.go:284-304 | The last n entries in reverse order of insertion, by swapping in place; a panic exactly for a negative n and a list that is not empty |
| ErrorTracking.ErrorTracker.GetErrorCountLastMinute | pkg/heartbeat/payload.go:307-319 | The sum of the counts of the entries seen in the last minute |
| ErrorTracking.KeyIsInjective | pkg/heartbeat/payload.go:254-254 | Two different errors share a counter only if the type of one, followed by a colon, is a prefix of the type of the other |
| ErrorTracking.KeysCollideExactly | pkg/heartbeat/payload.go:254-254 | Two types have messages that share a counter exactly in that case |
| ErrorHistories.BoundedAndDeduplicated | pkg/heartbeat/payload.go:250-281 | After every history never more than 100 entries, never two for one error |
| ErrorHistories.CountersAreOccurrences | pkg/heartbeat/payload.go:254-255 | After every history, evictions or not, a counter is at least the number of occurrences of its error, and equal to it exactly if no other reported error has its key |
| ErrorHistories.ReportedCount | pkg/heartbeat/payload.go:258-275 | The entry just reported shows its true count exactly if it was never seen, or was still listed and no other reported error has its key; if it was not listed it shows one |
| ErrorHistories.EvictedRestarts | pkg/heartbeat/payload.go:258-275 | After 101 different errors the first is no longer listed, and reported again it shows one instead of two |
| ErrorCounts.AllListed | pkg/heartbeat/payload.go:258-280 | With at most 100 distinct errors the list shows exactly those reported |
| ErrorCounts.CountsAreTrue | pkg/heartbeat/payload.go:250-281 | If besides no two of them share a key, every count is its number of occurrences and they add up to the number of reports |
| ErrorCounts.CountsAreTrueExactly | pkg/heartbeat/payload.go:250-281 | All histories of a set of types with at most 100 distinct errors have true counts exactly if no type, followed by a colon, is a prefix of another |
| ErrorCounts.Miscounted | pkg/heartbeat/payload.go:254-263 | Two errors with one key: reported once and twice, the second shows three |
| RecentErrors.RecentCountIsNoUnderestimate | pkg/heartbeat/payload.go:307-319 | With at most 100 distinct errors the last-minute count is never below the true number, colliding keys or not |
| RecentErrors.RecentCountExactly | pkg/heartbeat/payload.go:307-319 | If besides no two of them share a key, it is the true number exactly if no error was reported both up to the cutoff and after it |
| Heartbeat.Manager.Start | pkg/heartbeat/manager.go:100-122 | Refused exactly when running; ticker, channel and flag come into being together |
| Heartbeat.Manager.Stop | pkg/heartbeat/manager.go:125-145 | They go together, and no channel is closed twice |
| Heartbeat.Manager.SetInterval | pkg/heartbeat/manager.go:148-164 | A positive interval becomes base and interval and a live ticker follows it; any other changes nothing |
| Heartbeat.Manager.BackoffInterval | pkg/heartbeat/manager.go:316-338 | The doubling loop in 64-bit arithmetic, jittered and clamped, equals the backoff function |
| Heartbeat.Manager.HandleHeartbeatSuccess | pkg/heartbeat/manager.go:265-282 | Failures are forgotten and the interval is the base again |
| Heartbeat.Manager.HandleHeartbeatFailure | pkg/heartbeat/manager.go:284-314 | One more failure, the backed-off interval on a live ticker, and a full stop at the limit, from every reachable state |
| Heartbeat.Manager.HandleStateEvent | pkg/heartbeat/manager.go:360-396 | Reconnection recovers, disconnection backs off, anything else changes nothing |
| Heartbeat.BackoffClosedForm | pkg/heartbeat/manager.go:316-327 | Up to the first failure the backoff is the base; from the second on it is min(base * 2^(k-1), 2 min) for bases below 2^62 |
| Heartbeat.BackoffExactly | pkg/heartbeat/manager.go:318-327 | It is so for all k exactly for those bases |
| Heartbeat.OverflowCollapses | pkg/heartbeat/manager.go:318-333 | Above, the second failure sets the interval to one second |
| Heartbeat.JitterIsEven | pkg/heartbeat/manager.go:328-337 | A draw between 0 and 1 spreads the backoff evenly from 85 to 115 percent, cut to [1 s, 2 min] |
| Heartbeat.JitterStaysClose | pkg/heartbeat/manager.go:328-337 | For every draw the result is in [1 s, 2 min] and within 15 percent, and at least 102 s once capped |
| Heartbeat.StopsAtMaxFails | pkg/heartbeat/manager.go:288-313 | A run of failures stops the manager at the limit and not before, on the interval of its last draw |
| HeartbeatRuns.FailsAreHistory | pkg/heartbeat/manager.go:265-396 | After every interleaving the count is the number of failures, disconnections and reconnection attempts since the last success, reconnection, reset or accepted start |
| HeartbeatRuns.RunsExactly | pkg/heartbeat/manager.go:100-396 | The manager runs exactly if it ran or was started and since then there was no Stop and no heartbeat failure that brought that number to the last limit set |
| HeartbeatRuns.IntervalIsHistory | pkg/heartbeat/manager.go:148-396 | The interval is the base of the last success, reconnection or new interval, or what the last failure or disconnection drew for the base and the count of that moment |
| HeartbeatRuns.DisconnectsNeverStop | pkg/heartbeat/manager.go:380-395 | Disconnections count like failures but leave a running manager running, even beyond its limit |
| HeartbeatRuns.RunStaysSane | pkg/heartbeat/manager.go:100-396 | In every interleaving the interval is the base or in [1 s, 2 min], and differs from the base only after an unrecovered failure or disconnection |
| Retry.Contains | pkg/errors/errors.go:115-127 | True exactly if the text occurs somewhere |
| Retry.OccursExactly | pkg/errors/errors.go:115-127 | A text occurs in another exactly if that one is the text with something before and after it |
| Retry.HandleError | pkg/errors/errors.go:91-112 | Relay errors are kept, others classified by the first known text they contain |
| Retry.CodesExactly | pkg/errors/errors.go:61-112 | The code, the verdict and the delay of every error without a code, by the texts it contains |
| Retry.RelayCodesExactly | pkg/errors/errors.go:55-88 | The five codes that are worth a retry and their 5, 10, 2, 3 and 1 seconds; every other code is final with a delay of one second |
| Retry.RetryStrategy.ShouldRetry | pkg/errors/errors.go:148-159 | Yes exactly if the budget is not spent and the error retryable |
| Retry.RetriesExactly | pkg/errors/errors.go:148-181 | A retry is made exactly while the budget lasts, for a relay error that says so or a text with a rate limit, or an unavailable server without a connection limit, and no invalid token; it comes after min(pause * multiplier * number of the retry, cap) with pauses of 5 s and 10 s |
| Retry.RetryStrategy.GetNextDelay | pkg/errors/errors.go:162-181 | The capped delay of this round, at the price of one retry |
| Retry.WithRetry | cmd/cloudbridge-client/main.go:233-254 | The unbounded loop terminates and equals the loop function: result, attempts, sleeps, budget |
| Retry.LoopAccounts | cmd/cloudbridge-client/main.go:257-278 | Attempts are retries plus one, each sleep is within the cap, all but the last attempt failed with an error worth a retry, and it gives up only on one that is not, or with the budget spent |
| Retry.LoopSleeps | cmd/cloudbridge-client/main.go:233-254 | The i-th sleep belongs to the error of the i-th attempt and to that retry of the budget |
| Retry.RunSession | cmd/cloudbridge-client/main.go:192-206 | Connect, authenticate and create tunnel in turn, stopping at the first failure |
| Retry.SessionBudget | cmd/cloudbridge-client/main.go:192-206 | The three loops make at most MaxRetries + 3 attempts together, exactly three plus the retries on success |
| Retry.SessionSleeps | cmd/cloudbridge-client/main.go:192-206 | In a whole session the i-th sleep is that of the i-th retry, after an attempt that failed with an error worth one |
| Retry.RejectedTokenIsFinal | cmd/cloudbridge-client/main.go:257-278 | A session whose first error contains "invalid token" makes one attempt and does not sleep |

## Left out

- QUIC, gRPC, TLS, HTTP, STUN and ICE: a dial or probe is only its answer and the time it takes.
- Every successful dial yields a session of its own; an opener that returned one session twice is not modelled.
- Closing a session takes no time and its error is ignored, as the selector ignores it.
- The two production adapters are one class with a name and a token flag; their prober and opener are the environment.
- Sessions and selectors are never nil in the model; the nil checks at the start of `Ensure` and `HealthTick` are not modelled.
- `UpdatedAt`, `lastBeat`, tunnel statistics other than the byte counter, logging: written but never decided on.
- An explicit call of an adapter's `Close` is modelled but is not a step of the selector's runs: the selector never makes it.
- Parent contexts are deadlines; cancellation before the deadline is not a step of its own.
- Counters are unbounded; their 64-bit range is not modelled.
- Handover tokens, HMAC, JSON and base64: library code.
- `DiscoveredPeers`, the topology copy and mesh statistics: plain copies and sums.
- Goroutines of sessions that share a selector: `Ensure` and `HealthTick` hold the selector's lock, so each is one step; `ClearActive`, which takes no lock, is one too.
- The mesh lock order and goroutines: each locked method is one atomic step, and so is each locked heartbeat method.
- The three retry functions differ only in the operation they call, so they are one method over an attempt number.
- Retry.RetryStrategy.GetNextDelay: does not model what Go does with a delay too large for 64 bits, because that conversion is implementation-defined.
- Heartbeat.Manager.BackoffInterval: does not model that conversion either where the jittered base reaches 2^63 ns, which takes a base of more than 250 years.
- Heartbeat.JitterStaysClose: rests on the same conversion for such a base.
- Slices that share an array: a buffer is a whole array, so returning a part of one is not modelled.
- Handover.HandoverSaves: requires measurements that can occur (no negative delay or loss), as AcceptanceLowersCost shows to be necessary; the same holds for the SLO controller and for latencies.
- TunnelCopy.Copy: a failing write is taken to write nothing, because the source discards the number of bytes a failing write reports; the pool's buffers have a size that is not negative, as every tunnel asks for 4096 bytes (`pkg/tunnel/manager.go:193`).
- Error rates and HTTP requests of the transport health checkers: readings are parameters.
- Metrics export, CLI, configuration loading, service installation, WireGuard managers: I/O and plumbing.
