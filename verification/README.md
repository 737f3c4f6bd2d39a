# Yaver relay: state machines, meters and codecs

A Dafny model of the Go relay in `relay/` (the map of agent tunnels, the websocket multiplexer, subdomain
routes, abuse guard, bandwidth metering, streaming responses, replay caches, signed strings, mesh frames and
header rewriting) and of two Convex state machines in `backend/convex/` (the rescue queue and task
snapshots), with proofs about all inputs and all runs.

Concurrency is modelled as a state machine: each block the source runs under one mutex, and each Convex
mutation, is one atomic step of a pure `Next`; a run is any sequence of enabled steps, in any interleaving.
Beside each state machine stands a class with the source's fields, whose methods follow the source statement
by statement and are proved to make exactly that step. What the source promises is then proved about runs of
`Next`. Every clock reading is a parameter of its step.

| file | follows |
|---|---|
| `TunnelRegistry.dfy` | `relay/server.go`, `relay/tunnel_liveness.go`: registration, removal and lookup in `tunnels` |
| `WsTunnel.dfy` | `relay/server.go`: `wsAgentTunnel` |
| `ExposeRoutes.dfy` | `relay/server.go`: `exposeRoutes` |
| `AbuseGuard.dfy` | `relay/abuse_guard.go` |
| `Bandwidth.dfy`, `CountingWriter.dfy`, `StreamBilling.dfy` | `relay/bandwidth.go`, `relay/counting_writer.go`, and the streaming branch of `relay/server.go` that joins them |
| `StreamWire.dfy` | `relay/relay_stream_wire.go` against `desktop/agent/relay_stream_wire.go` |
| `ReplayGuard.dfy`, `SignedStrings.dfy` | `relay/sigauth.go`, `relay/selftest.go`, `relay/webview_cookie.go` |
| `Mesh.dfy` | `relay/mesh.go` |
| `FrameHeaders.dfy` | `relay/frame_headers.go` |
| `RescueQueue.dfy`, `TaskSnapshots.dfy` | `backend/convex/agentRescue.ts`, `backend/convex/agentTaskSnapshots.ts` |
| `Text.dfy`, `Wire.dfy`, `Sums.dfy`, `Wrappers.dfy` | the parts of the Go library the above needs |

## Where the code does less than one might think

Each of these is proved as an exact condition over all inputs or all runs, with a concrete run or input beside it.

- Idle-bucket eviction is invisible to a key if and only if the key's own pair refills within the TTL
  (`ttl * rate >= burst`). The defaults do; the environment overrides are not checked against it.
- `CheckAllowed` reads the date without the lock and zeroes the counters under it without looking again. In every
  run a device's count for today is what was recorded today less what such late resets wiped, and an account's
  usage is exact if and only if none of its present devices had a late reset today.
- `CheckAllowed` reads the tier twice, the load and the usage once each, without one lock around them. The verdict
  stays between the first tier's allowance and its relaxed form; a downgrade between the two readings of the tier
  admits what neither tier would.
- Every stream of a judged device is given the whole remaining allowance as its budget. n streams can take the
  usage n allowances up, and no further than that plus each one's last write and request. A stream opened while
  its device is not judged (no record yet, unmetered, or last counted on another day) has no budget and is never
  cut.
- `verifyDeviceSig` reads the clock twice. A signed request is accepted a second time exactly when it passes the
  skew check at or before, and is remembered after, the instant two skews past its first acceptance. With one
  reading per request the two windows fit exactly and there is no replay.
- A tunnel entry's goroutine is gone if and only if its websocket's "registered" reply failed, and such an entry
  stays if and only if its own non-empty owner does not register again; with an empty owner it stays for ever.
- A QUIC registration does not recognise a dead websocket as dead; a websocket registration does.
- The read loop of a websocket tunnel answers pings itself, under the mutex of all writes. It has no step of its
  own if and only if it owes a pong and its own write or that of some request has not returned; until a write
  returns, no reply is delivered.
- `wsAgentTunnel.pending` is exact for an id if and only if, since no call under it was last in flight, none began
  while another was. With a clash the reply to one call resolves the other, and the first to leave unregisters
  the second.
- The clean-up of expose routes knows the device but not the connection. While a connection is up its device
  holds the automatic subdomain if and only if, since it was given the name, no other connection of the device
  was cleaned up, the device did not unregister it, and no case variant of its id was provisioned. So the late
  clean-up after a reconnect takes the successor's route.
- A Content-Security-Policy header may hold several policies, separated by commas, but `stripCSPFrameAncestors`
  splits at semicolons only. It removes frame-ancestors from every policy and nothing else if and only if no
  semicolon-separated part holds both a comma and a frame-ancestors directive. A policy still forbids framing if
  and only if a part that is kept carries one behind a comma, and policies are lost if and only if a dropped part
  reaches behind one.
- The header comment of `agentRescue.ts` (lines 15-19) says a claim returns only commands whose `ownerUserId`
  is the agent's user. The code compares the device's present owner, not the command's. In every run the command
  handed over is foreign if and only if the device had another owner when it was queued, which takes a transfer
  within the last five minutes.

## Model

| member | source | states |
|---|---|---|
| TunnelRegistry.StepKeepsInv | relay/server.go:1204-1264 | every locked block keeps the invariant: keys match device ids, one transport per entry, handlers and carried requests hold the tunnel they registered or found, and an entry whose goroutine is gone is an orphaned websocket |
| TunnelRegistry.EntriesAreConsistent | relay/server.go:1204-1264 | in every reachable state each key is its entry's device id, exactly one of conn and ws is set, and no transport sits under two keys |
| TunnelRegistry.RemovedOnlyForItself | relay/server.go:1352-1356 | outside registrations for its key, an entry goes exactly when a clean-up, eviction or failed open acts for that very transport, and it is never altered: a late clean-up cannot drop its successor |
| TunnelRegistry.EntryEndsOnlyByItself | relay/server.go:2240-2244 | the same over any stretch of any run: whatever is gone or replaced went in a step for its own transport or a registration for its device |
| TunnelRegistry.RegistrationVerdict | relay/server.go:1480-1531 | a registration succeeds iff the key is free, the predecessor looks dead to that path, or both owners are the same non-empty user; a predecessor replaced while alive is closed in that step; refused transports are closed and never listed |
| TunnelRegistry.ClosesIff | relay/server.go:1217-1253 | the relay closes a transport iff its registration is refused, its own owner's registration supersedes it while alive, its "registered" reply failed, or it is evicted while still listed |
| TunnelRegistry.DoneIff | relay/tunnel_liveness.go:65-82 | a transport that is up comes to be done iff it ends by itself or is a QUIC connection the relay closes |
| TunnelRegistry.DeadWebsocketArises | relay/server.go:1204-1264 | the three-step run that leaves a dead websocket listed |
| TunnelRegistry.OnlyWebsocketsSeeItDead | relay/server.go:1208-1252 | over it a QUIC registration by anybody but the same non-empty owner is refused, while a websocket one by the same registrant is accepted |
| TunnelRegistry.LiveEntryIsNotHijacked | relay/server.go:1217-1253 | an entry whose transport is up is replaced only by its own non-empty owner, and its transport is closed in that step |
| TunnelRegistry.OwnerChangeNeedsAnEnd | relay/server.go:1204-1264 | between two moments of any run at which a device's key has different owners, some tunnel of the first owner was removed or had died |
| TunnelRegistry.LookupFindsIff | relay/server.go:2114-2132 | in every reachable state a lookup finds exactly the device's entry, and the request is carried by it, iff the key is there and either user is empty or both are equal; nothing else changes |
| TunnelRegistry.CarriedWithinOneOwner | relay/server.go:2114-2132 | a request authorised as a non-empty user keeps the tunnel its lookup found, whose owner is that user or nobody, however the map changes later |
| TunnelRegistry.OrphanedIff | relay/server.go:1547-1551 | over every run an entry's goroutine is gone iff an earlier step was the failed "registered" reply on its own transport |
| TunnelRegistry.OrphanKeepsItsKeyIff | relay/server.go:1547-1551 | over every stretch of a run such an entry is still in place iff its own non-empty owner has not registered again |
| TunnelRegistry.OrphanArises | relay/server.go:1547-1551 | such an orphan is reachable in two steps |
| TunnelRegistry.Watcher.Observe | relay/tunnel_liveness.go:103-127 | one turn of the loop: stops when the connection is done, evicts at the first pair of consecutive failed probes before that, and otherwise goes on |
| TunnelRegistry.RelayServer.WatcherTurn | relay/tunnel_liveness.go:103-127 | a turn makes the eviction step exactly when the watcher evicts and otherwise changes nothing, whatever happened between the turns |
| TunnelRegistry.RelayServer.RegisterAgentConnection | relay/server.go:1204-1264 | the QUIC registration block makes exactly the QUIC registration step |
| TunnelRegistry.RelayServer.RegisterAgentWebSocket | relay/server.go:1480-1531 | the websocket registration block makes exactly the websocket registration step |
| TunnelRegistry.RelayServer.CleanupAfterDone | relay/server.go:1563-1567 | the block after a transport is done makes exactly the clean-up step, for both transports |
| TunnelRegistry.RelayServer.EvictTunnelIfCurrent | relay/tunnel_liveness.go:65-82 | removes and closes the tunnel iff its own connection is still listed, and reports it |
| TunnelRegistry.RelayServer.LookupTunnel | relay/server.go:2114-2132 | returns the device's entry iff it is there and either user is empty or both are equal, and carries the request on it |
| TunnelRegistry.RelayServer.RemoveAfterFailedOpen | relay/server.go:2240-2244 | the block after a failed stream open makes exactly that step |
| WsTunnel.RepliesAreOwnAndUnshared | relay/server.go:216-272 | in every interleaving a call returns only a frame carrying its own id, and no frame resolves two calls, even when ids clash |
| WsTunnel.OutcomesTell | relay/server.go:228-247 | over every run a call returns a frame it took from its slot, a send error iff its write failed, "closed" only with `done` closed, and "cancelled" only when its context ended |
| WsTunnel.OnePongPerPing | relay/server.go:250-272 | over every run each ping is answered by one pong, at most the last still owed, and `done` is closed iff the socket has failed |
| WsTunnel.ExactForIff | relay/server.go:216-226 | a step keeps `pending` exact for an id iff it does not begin a call under it while another is in flight |
| WsTunnel.PendingExactIff | relay/server.go:216-226 | over every run, id by id: since no call under the id was last in flight, `pending` is exact for it iff no call has begun under it while another was in flight |
| WsTunnel.FirstReplyReachesItsCall | relay/server.go:250-266 | in every run, from the moment the first reply to a pending call is read it is offered to that call's empty slot, in that slot, or what the call returned, whatever steps come between |
| WsTunnel.ClashCrossDelivers | relay/server.go:216-272 | with two calls under one id, a run in which the reply to the first resolves the second |
| WsTunnel.ClashUnregisters | relay/server.go:221-225 | with two calls under one id, a run in which the first one's exit unregisters the second |
| WsTunnel.ReaderBlockedIff | relay/server.go:250-270 | in a reachable state the read loop has no step of its own iff it owes a pong and its own write or that of some call has not returned; it never waits for the receiver of a reply |
| WsTunnel.BlockedUntilAWriteReturns | relay/server.go:210-214 | a blocked read loop stays blocked, taking no further frame, for exactly as long as no write returns |
| WsTunnel.PingBehindAWrite | relay/server.go:268-269 | a three-step run in which a ping read during a call's write blocks the read loop |
| WsTunnel.DoneDrains | relay/server.go:210-248 | once `done` is closed every run without new calls is bounded, and where it can go no further all calls have finished and `pending` is empty, calls waiting for the write mutex included |
| WsTunnel.EveryoneCanFinish | relay/server.go:210-248 | from every such state there is a run that finishes every call, given that writes on the dead socket return |
| WsTunnel.WsAgentTunnel.BeginRequest | relay/server.go:217-220 | makes exactly the step that registers a call |
| WsTunnel.WsAgentTunnel.Select | relay/server.go:231-247 | the three-way select makes exactly the chosen step and returns its outcome |
| WsTunnel.WsAgentTunnel.EndRequest | relay/server.go:221-225 | the deferred delete makes exactly that step |
| WsTunnel.WsAgentTunnel.ReceiveFrame | relay/server.go:253-269 | one frame and its lookup, or a ping that owes a pong, make exactly the receive step |
| WsTunnel.WsAgentTunnel.OfferFrame | relay/server.go:261-266 | the non-blocking send makes exactly the offer step |
| ExposeRoutes.QuotaHolds | relay/server.go:2540-2624 | over every run a device owns at most 32 routes besides its automatic subdomain and at most 33 in all |
| ExposeRoutes.ReservedNeverRouted | relay/server.go:2577-2583 | no run ever routes a reserved name, auto-provisioning included |
| ExposeRoutes.AcceptedIff | relay/server.go:2555-2613 | a registration is accepted iff the lower-cased name has 3 to 32 letters, digits and inner hyphens, is not reserved, the port is real, and the name is the device's own or free with fewer than 32 held |
| ExposeRoutes.HoldsAfter | relay/server.go:2591-2634 | after a step a device holds a subdomain iff the step gave it, or it held it and the step was no clean-up of one of its connections, no unregistering of its own and no provisioning of a case variant; a register step never takes another device's route; a name given carries the registered port or 18080, a name kept its old one |
| ExposeRoutes.HeldIff | relay/server.go:2540-2634 | over every run a device holds a subdomain iff some step gave it the name and none since took it away |
| ExposeRoutes.AutoRouteKeptIff | relay/server.go:1301-1376 | while a connection is up its device holds the automatic subdomain iff, since it was given the name, no other connection of the device was cleaned up, the device did not unregister it, and no case variant was provisioned |
| ExposeRoutes.ReconnectLosesItsRoute | relay/server.go:1242-1310 | the three-step run of a reconnect provisioned before the superseded connection is cleaned up |
| ExposeRoutes.ExposeTable.AutoProvisionRoute | relay/server.go:1301-1310 | the reserved-name check and the provisioning make exactly the provisioning step |
| ExposeRoutes.ExposeTable.RouteLimitReached | relay/server.go:2542-2553 | the counting loop decides whether the device holds 32 routes, an update of its own route excepted |
| ExposeRoutes.ExposeTable.HandleExposeRegister | relay/server.go:2555-2624 | validates in the source's order, answers with the first failing check, and routes the subdomain to the device and port only when all pass |
| ExposeRoutes.ExposeTable.HandleExposeUnregister | relay/server.go:2626-2634 | removes the route iff the device holds it |
| ExposeRoutes.ExposeTable.DropConnection | relay/server.go:1369-1376 | the loop makes exactly the clean-up step of the connection |
| AbuseGuard.EvictionIsUnobservable | relay/abuse_guard.go:221-270 | if a key's own pair refills within the TTL, each of its verdicts in every run equals that of a bucket map that never forgets, whatever the other keys' pairs |
| AbuseGuard.EvictionUnobservableIff | relay/abuse_guard.go:221-270 | eviction changes no verdict for a key in any run iff the key's own pair refills within the TTL |
| AbuseGuard.ObservableEviction | relay/abuse_guard.go:221-270 | for any pair that violates the condition, a run in which a verdict differs |
| AbuseGuard.GrantedIffEveryWindowHasRoom | relay/abuse_guard.go:241-270 | a request is granted iff, counting it, every window from an earlier (or this) request of its key with no clearing in between stays within burst + length * rate |
| AbuseGuard.WindowBound | relay/abuse_guard.go:221-270 | grants of a key in any window of length T without a clearing of the key number at most burst + T * perMinute / 60, however other keys are configured |
| AbuseGuard.DefaultsRefillWithinTTL | relay/abuse_guard.go:48-76 | every shipped pair, and the ten-fold proxy hard cap, meets the condition |
| AbuseGuard.CounterIsInFlight | relay/abuse_guard.go:308-332 | over every run in which only admitted requests leave, the per-device counter is the number in flight, within the cap, with no entry left for an idle device |
| AbuseGuard.LetInIff | relay/abuse_guard.go:308-319 | over every such run a request is let in iff there is no cap or fewer than the cap are in flight for its device |
| AbuseGuard.InactiveNeverLimits | relay/abuse_guard.go:241-244 | a non-positive rate or burst limits nothing and leaves no bucket |
| AbuseGuard.AbuseGuard.AllowRequest | relay/abuse_guard.go:241-270 | refills, caps and spends exactly as the bucket step says |
| AbuseGuard.AbuseGuard.CleanupTick | relay/abuse_guard.go:221-239 | the sweep loop deletes exactly the buckets last seen before the cutoff |
| AbuseGuard.AbuseGuard.ClearInvalidAuth | relay/abuse_guard.go:471-476 | deletes that address's invalid-auth bucket and no other |
| AbuseGuard.AbuseGuard.TryEnterDevice | relay/abuse_guard.go:308-319 | makes exactly the enter step |
| AbuseGuard.AbuseGuard.Leave | relay/abuse_guard.go:321-332 | makes exactly the leave step |
| Bandwidth.CountersAreExact | relay/bandwidth.go:126-237 | in every run of binds, tiers, records, resets and clean-ups a device's counters for today hold the bytes recorded today less those late resets of that device wiped today |
| Bandwidth.CountersExactIff | relay/bandwidth.go:126-237 | they never exceed what was recorded, and equal it iff no reset of that device met bytes of today; other devices and other days do not matter |
| Bandwidth.ResetConservesIff | relay/bandwidth.go:142-151 | the reset in `CheckAllowed` zeroes that device and stamps the date it read, and keeps today's count iff no byte of today had been counted when it got the lock |
| Bandwidth.LateResetLosesBytes | relay/bandwidth.go:142-151 | a run in which a check that saw yesterday's date wipes today's n bytes |
| Bandwidth.AccountUsageIsExact | relay/bandwidth.go:239-253 | in every run today's account usage is what was recorded today for the devices now bound to it, less what late resets of theirs wiped today |
| Bandwidth.AccountUsageExactIff | relay/bandwidth.go:239-253 | it never exceeds what was recorded, and equals it iff none of these devices had a late reset today |
| Bandwidth.TierAndAccountMoves | relay/bandwidth.go:210-215 | records can only add the paid flag; nothing but an explicit tier or binding changes tier, exemption or account |
| Bandwidth.NewDeviceStarts | relay/bandwidth.go:186-194 | a device first met by a record, a binding or a tier starts with exactly what that step says |
| Bandwidth.CleanupRemovesIff | relay/bandwidth.go:524-529 | the clean-up removes a device iff it has recorded nothing for more than seven days |
| Bandwidth.WindowKeepsItsMinute | relay/bandwidth.go:205-208 | a window stays open for its whole minute and no longer |
| Bandwidth.WindowIsExact | relay/bandwidth.go:205-209 | over every run an open one-minute window holds exactly the bytes recorded since its start, and no record lies past its minute |
| Bandwidth.LoadIsRecent | relay/bandwidth.go:500-507 | the load counts each open window's bytes since it began and never a byte recorded a minute or more ago |
| Bandwidth.LoadCountsIff | relay/bandwidth.go:503-507 | a device counts for the load iff its window began less than a minute ago |
| Bandwidth.LoadIsMeasured | relay/bandwidth.go:513-516 | the ratio is the bits of the last minute over what the configured megabits per second carry in a minute |
| Bandwidth.TotalsForgetNothing | relay/bandwidth.go:218-219 | the relay's totals are those of the whole run; no reset or clean-up touches them |
| Bandwidth.MultiplierBoundsAndMonotone | relay/bandwidth.go:473-516 | the free multiplier stays in [1, RelaxMultiplier] and never rises as recent traffic grows; paid is exactly 1 |
| Bandwidth.MultiplierAtThresholds | relay/bandwidth.go:480-498 | full relaxation up to the low threshold, 1 from the high one, a straight line in between |
| Bandwidth.MetersAgree | relay/bandwidth.go:431-461 | `RemainingBytes` is at least 1 for a judged device; `CheckAllowed(n)` implies n <= `RemainingBytes`, and conversely when that is above 1 |
| Bandwidth.MeterVerdicts | relay/bandwidth.go:126-177 | a device that is unknown, unmetered or last counted on another day is allowed anything and has 0 remaining; any other is allowed n iff usage plus n is within its tier's scaled limit, and has what is left, or 1 |
| Bandwidth.LimitFallsWithLoad | relay/bandwidth.go:153-164 | more recent traffic never raises the limit, which stays between the strict and the fully relaxed one; a paid limit is the strict one |
| Bandwidth.ReadingsBand | relay/bandwidth.go:153-176 | for any two readings of the tier and any moments of the load and the usage, the verdict is never stricter than the first tier's allowance and never laxer than that allowance, relaxed if the second reading was free |
| Bandwidth.CheckErrsByLoadOnly | relay/bandwidth.go:153-176 | over every run, if nothing moves the tier between the readings, a paid verdict is that of the last state and a free one errs only by the load that came or went |
| Bandwidth.DowngradeBetweenReadings | relay/bandwidth.go:154-164 | a run in which a downgrade between the two readings admits a device above both its limits |
| Bandwidth.SplitIsIrrelevant | relay/bandwidth.go:126-177 | two runs with the same account total kept today, tier and load give the same verdicts, however the traffic is split over devices |
| Bandwidth.BandwidthManager.CheckAllowed | relay/bandwidth.go:126-177 | the verdict of `MeterVerdicts`, always yes for an unknown, unmetered or stale device, and the reset of a stale record |
| Bandwidth.BandwidthManager.RecordBytes | relay/bandwidth.go:180-220 | makes exactly the record step |
| Bandwidth.BandwidthManager.BindDeviceAccount | relay/bandwidth.go:225-237 | makes exactly the bind step |
| Bandwidth.BandwidthManager.UsageForAccount | relay/bandwidth.go:239-253 | the loop computes the sum over the account's devices on that date, or the single device without an account |
| Bandwidth.BandwidthManager.SetDeviceTier | relay/bandwidth.go:403-417 | makes exactly the tier step |
| Bandwidth.BandwidthManager.RemainingBytes | relay/bandwidth.go:431-461 | what the account has left today, 1 for nothing left, and 0 iff the device is unknown, unmetered or stale |
| Bandwidth.BandwidthManager.CurrentRecentBytes | relay/bandwidth.go:500-507 | the loop computes the sum over open windows |
| Bandwidth.BandwidthManager.CleanupTick | relay/bandwidth.go:519-533 | removes exactly the devices idle for seven days |
| CountingWriter.BilledExactly | relay/counting_writer.go:65-102 | for any chunking, failures and cut, the reports made by the end of `Close` are positive and sum to the bytes the client was sent; a second `Close` reports nothing |
| CountingWriter.LagIsBounded | relay/counting_writer.go:61-84 | after every write less than 256 KiB is unreported |
| CountingWriter.BudgetIsHard | relay/counting_writer.go:75-81 | a stream with budget B > 0 writes less than B plus its last effective write, is exhausted iff it met B, and without a budget is never cut |
| CountingWriter.WriteAnswers | relay/counting_writer.go:65-84 | after any attempts a write takes nothing once the budget is met; before that it passes on the accepted count, with the budget error iff it meets the budget and otherwise the underlying error or none |
| CountingWriter.ReportsAreLarge | relay/counting_writer.go:71-79 | each report made during the stream is at least 256 KiB, but for the one that goes with meeting the budget |
| CountingWriter.CountingResponseWriter.WriteBytes | relay/counting_writer.go:65-84 | makes exactly the write step |
| CountingWriter.CountingResponseWriter.FlushReport | relay/counting_writer.go:87-102 | makes exactly the flush step |
| StreamBilling.InterleavedBilling | relay/server.go:2340-2364 | in any interleaving of closed streams and other requests, and across midnights, what is recorded for a set of devices is what the others recorded plus, once each, the bytes the streams sent and received |
| StreamBilling.DatesSplit | relay/server.go:2340-2364 | the bytes recorded over a span of dates are those of its two halves: a midnight loses and repeats nothing |
| StreamBilling.StreamTotal | relay/server.go:2340-2364 | an open stream has billed no more than it sent and received, a closed one exactly that |
| StreamBilling.InterleavedUsage | relay/server.go:2340-2364 | in any interleaving today's usage of an account is at most what other requests recorded today for its devices plus what its streams have billed today so far, and exactly that iff none of these devices had a late reset today |
| StreamBilling.StreamsOvershoot | relay/server.go:2340-2364 | n streams of judged devices, opened and run in any interleaving, take today's usage to less than what other requests recorded plus n times the allowance left when they opened, plus each one's last write and request |
| StreamBilling.UnjudgedStreamsAreNeverCut | relay/server.go:2340-2349 | a stream has no budget iff its device was unknown, unmetered or stale when it opened, and is then never cut |
| StreamBilling.EachGetsTheWholeAllowance | relay/server.go:2340-2349 | for every n a run in which n streams reach the limit plus n - 1 further allowances |
| StreamWire.ReadsWhatWasWritten | relay/relay_stream_wire.go:18-29 | for any status in 100..599, headers and non-empty chunks within the caps, the reader emits exactly that status, those headers and the concatenated body, and takes exactly the encoding off the stream |
| StreamWire.TruncationIsNoticed | relay/relay_stream_wire.go:106-136 | on every strict prefix the reader fails, having passed on the status and headers iff they are complete, and every body byte that arrived |
| StreamWire.NothingPassedOnIff | relay/relay_stream_wire.go:55-93 | on any stream nothing is passed on iff the version, status, header size or header text is bad or the stream ends before the headers do |
| StreamWire.AcceptsOnlyEncodings | relay/relay_stream_wire.go:55-137 | a clean end is reported only for a stream that starts with an encoding of what was emitted |
| StreamWire.ReadStreamingResponse | relay/relay_stream_wire.go:55-137 | the sequence of reads yields the specified outcome, each failure included |
| StreamWire.CopyChunks | relay/relay_stream_wire.go:106-136 | the chunk loop emits the body the recursive reader describes |
| ReplayGuard.AcceptedIff | relay/sigauth.go:97-113 | a request is accepted iff its timestamp is within a minute of the clock and no earlier acceptance of its device and nonce lies within two minutes; other devices and other nonces never change a verdict |
| ReplayGuard.KeyIsInjective | relay/sigauth.go:109-111 | a cache key stands for one device and one nonce, as device ids hold no NUL |
| ReplayGuard.CacheIsShort | relay/sigauth.go:48-55 | after each call the cache holds nothing older than two minutes |
| ReplayGuard.NoReplayWithOneReading | relay/sigauth.go:97-113 | with one clock reading per request no signed request is accepted twice in any run |
| ReplayGuard.DoubleAcceptanceStraddles | relay/sigauth.go:97-113 | a second acceptance needs the two readings to straddle the end of retention |
| ReplayGuard.ReplayAcceptedIff | relay/sigauth.go:97-113 | a replay of a once-accepted request is accepted iff it passes the skew check and straddles |
| ReplayGuard.TwoReadingsAdmitAReplay | relay/sigauth.go:97-113 | a run in which one nanosecond between the readings admits a replay |
| ReplayGuard.PruningIsUnobservable | relay/selftest.go:98-113 | the prune above 4096 entries never changes a verdict |
| ReplayGuard.PruneBound | relay/selftest.go:98-107 | above 4096 entries a call leaves none older than the TTL, at or below it drops none |
| ReplayGuard.FreshIff | relay/selftest.go:160-168 | where nothing overflows, a watchdog request is fresh iff issued within a minute of the clock, on either side |
| ReplayGuard.AdmittedIff | relay/selftest.go:160-172 | a watchdog request is admitted iff it is fresh and its nonce was not admitted less than a TTL ago |
| ReplayGuard.NoSelftestReplay | relay/selftest.go:160-172 | no (nonce, issue time) is admitted twice, int64 wrap-around of the skew included |
| ReplayGuard.SigNonceCache.RememberKey | relay/sigauth.go:48-61 | the sweep loop and the insertion make exactly the specified step |
| ReplayGuard.NonceGuard.CheckAndRecordNonce | relay/selftest.go:98-113 | the prune loop and the check make exactly the specified step |
| SignedStrings.RawUrlHasNoDot | relay/webview_cookie.go:105-109 | unpadded base64url (section 5 of RFC 4648) never contains a dot |
| SignedStrings.DecodesIff | relay/webview_cookie.go:105-109 | the encoding reads back as exactly the bytes encoded, nothing else reads so, and three bytes take four characters |
| SignedStrings.VerifyIff | relay/webview_cookie.go:117-145 | a value verifies iff device and secret are non-empty and it is d.s.g with s an integer later than now and g reading back as the whole MAC of d.s |
| SignedStrings.HexDigits | relay/sigauth.go:31-32 | the body digest is written as two lower-case digits a byte, the high one first |
| SignedStrings.MintedVerifiesIff | relay/webview_cookie.go:100-103 | a minted cookie verifies exactly for its own device and until it expires, dots in the ids included |
| SignedStrings.CanonicalIsInjective | relay/sigauth.go:30-33 | equal canonical strings mean equal requests up to the digest of the body, even with newlines in the path |
| SignedStrings.NewlineInDeviceIDWouldCollide | relay/sigauth.go:30-33 | a newline allowed in a second field would make the string ambiguous |
| Mesh.DecodeOfEncode | relay/mesh.go:109-148 | decoding an encoded frame followed by anything gives the frame and the rest back |
| Mesh.EncodeOfDecode | relay/mesh.go:129-148 | whatever decodes is the encoding of a frame the encoder accepts |
| Mesh.CutFrame | relay/mesh.go:129-148 | no strict prefix of a frame decodes |
| Mesh.StreamDecodesToForwarded | relay/mesh.go:39-43 | in every interleaving of concurrent writers, writes that fail part-way and closes, a stream decodes at every moment to exactly the frames completely forwarded to it, in order |
| Mesh.ForwardedWithinOneOwner | relay/mesh.go:64-93 | every frame on a stream carries its sender's registered device id, and sender and target have one owner, a non-empty one on a Convex-backed relay |
| Mesh.ForwardedIff | relay/mesh.go:64-87 | in every reachable state a frame just read is forwarded with its payload to the stream its id names iff the id is non-empty and in the table, both ends have one owner, and on a Convex-backed relay a non-empty one |
| Mesh.ForwardedArrives | relay/mesh.go:39-43 | over every run, for a sender id that fits a frame and unless one of its own writes fails, a forwarded frame is still being handled by its source or is completely on the target's stream |
| Mesh.FourWritesDeliver | relay/mesh.go:109-127 | a job whose target is free and up is delivered by the lock and four writes: exactly the frame's encoding is appended |
| Mesh.ListedIff | relay/mesh.go:48-62 | over every run a stream is its device's entry iff it was registered for it and since then no other was, the device was not dropped and its own loop has not ended |
| Mesh.BrokenIff | relay/mesh.go:96-103 | over every run a stream is dead iff its loop ended, its device was dropped while it was the entry, or a write to it failed |
| Mesh.TableNamesItsDevices | relay/mesh.go:48-62 | the table's keys are the registered ids of the streams they name, so a frame goes to the device it addresses |
| Mesh.EachFrameWasAddressedHere | relay/mesh.go:64-93 | in every run each frame on a stream is one its source read, addressed to this stream's device and with the payload read; frames of one source stand in the order it read them, none twice |
| Mesh.EncodeMeshFrame | relay/mesh.go:109-127 | writes the whole encoding, or on a failing stream the prefix that fitted, or nothing if the frame is too large |
| Mesh.DecodeMeshFrame | relay/mesh.go:129-148 | the four reads compute the specified frame and length |
| FrameHeaders.StripKeepsTheRest | relay/frame_headers.go:48-69 | the directives of the result (section 2.2.1 of W3C Content Security Policy Level 3) are those of the input minus frame-ancestors in any letter case, in order and verbatim |
| FrameHeaders.StripIsIdempotent | relay/frame_headers.go:48-69 | stripping twice gives the same string as stripping once |
| FrameHeaders.DirectivesOfJoin | relay/frame_headers.go:45-68 | directives printed with "; " read back as themselves |
| FrameHeaders.FrameAncestorsIff | relay/frame_headers.go:59-65 | a directive is dropped iff its first word is frame-ancestors in any letter case |
| FrameHeaders.StripEmptyIff | relay/frame_headers.go:48-69 | the result is empty iff every directive is frame-ancestors |
| FrameHeaders.PoliciesKeptIff | relay/frame_headers.go:48-69 | for a value of several comma-separated policies: frame-ancestors goes from each of them, and nothing else, iff no semicolon-separated part holds both a comma and a frame-ancestors directive |
| FrameHeaders.StillForbidsIff | relay/frame_headers.go:48-69 | some policy of the result still forbids framing iff a part that is kept carries frame-ancestors behind a comma |
| FrameHeaders.PolicyLostIff | relay/frame_headers.go:48-69 | a policy is lost iff a dropped part reaches behind a comma |
| FrameHeaders.CommaExamples | relay/frame_headers.go:48-69 | one input of either kind |
| FrameHeaders.HeadersKeptIff | relay/frame_headers.go:17-40 | exactly the blocking headers go, and the policy headers all of whose parts begin with frame-ancestors; what stays is the policies minus frame-ancestors iff no part is mixed |
| FrameHeaders.BlockedFramingIff | relay/frame_headers.go:17-40 | no blocking header is left; a policy header still forbids framing iff a kept part carried frame-ancestors behind a comma; other headers are untouched, and a second pass changes nothing |
| FrameHeaders.StripCSPFrameAncestors | relay/frame_headers.go:48-69 | the filtering loop computes the specified string |
| FrameHeaders.HeaderMap.StripFrameBlockingHeaders | relay/frame_headers.go:17-40 | editing the map while ranging over it, in any order, gives the specified map |
| RescueQueue.StatusOnlyMovesForward | backend/convex/agentRescue.ts:148-175 | rows are never lost and change only in status: pending to expired or claimed, claimed to completed or failed; a row expires only when its time has come |
| RescueQueue.ClaimTakesOldestLive | backend/convex/agentRescue.ts:148-175 | a claim takes the oldest live row of its device, strictly before its expiry, and nothing only when there is none |
| RescueQueue.SweepRowByRow | backend/convex/agentRescue.ts:157-174 | the claim loop row by row: stale rows before the first live one expire, that one is claimed, nothing else is touched |
| RescueQueue.ReportEnds | backend/convex/agentRescue.ts:202-213 | a report ends exactly the caller's own claimed row, as completed or failed |
| RescueQueue.ClaimedAtMostOnce | backend/convex/agentRescue.ts:148-175 | over every run each command is returned by at most one claim, before its expiry |
| RescueQueue.OneLivePerCommand | backend/convex/agentRescue.ts:84-110 | with a clock that never goes back, at most one unexpired pending row exists per device and command |
| RescueQueue.ClaimsOwnCommand | backend/convex/agentRescue.ts:15-19 | with a clock that never goes back an agent is handed only its own user's commands, unless the device changed hands within the last five minutes |
| RescueQueue.ForeignClaimIff | backend/convex/agentRescue.ts:144-175 | in every run the command a claim hands over is foreign iff the device had another owner when that command was queued than it has now |
| RescueQueue.RowWasQueued | backend/convex/agentRescue.ts:99-108 | every row was queued by a step of the run, by the device's owner of that moment, with its expiry five minutes later |
| RescueQueue.ClaimAfterTransfer | backend/convex/agentRescue.ts:144-175 | a run in which that happens after a transfer, and the claimer's report is then refused |
| RescueQueue.RescueTable.QueueRescueCommand | backend/convex/agentRescue.ts:66-112 | makes exactly the queue step and returns a live row of that command, deduplicated iff nothing was inserted |
| RescueQueue.RescueTable.ClaimNextRescueCommand | backend/convex/agentRescue.ts:130-176 | the patching loop makes exactly the claim step |
| RescueQueue.RescueTable.ReportRescueResult | backend/convex/agentRescue.ts:191-215 | moves the reported row, and only a claimed one of the caller, to the reported end |
| TaskSnapshots.StoredIsLastThousand | backend/convex/agentTaskSnapshots.ts:74-90 | over every run the stored tombstones are the last thousand entries of the list that never forgets |
| TaskSnapshots.TombstonedIff | backend/convex/agentTaskSnapshots.ts:143-159 | an id is tombstoned iff it was deleted and fewer than 1000 distinct other ids have been deleted since |
| TaskSnapshots.SnapshotInvariant | backend/convex/agentTaskSnapshots.ts:74-90 | over every run at most 200 live tasks, at most 1000 tombstones with distinct ids, and no id is both |
| TaskSnapshots.DeletedStaysGone | backend/convex/agentTaskSnapshots.ts:77-79 | a deleted task is not live, whatever is reported, until 1000 distinct other ids have been deleted after it |
| TaskSnapshots.ReportedTaskIsLiveIff | backend/convex/agentTaskSnapshots.ts:77-79 | after a report a task is live iff it is reported at a place with fewer than 200 tasks not remembered as deleted before it, and is not remembered itself |
| TaskSnapshots.DeletionIsSelective | backend/convex/agentTaskSnapshots.ts:148-152 | a deletion removes that task and no other |
| TaskSnapshots.SnapshotRow.UpsertSnapshot | backend/convex/agentTaskSnapshots.ts:74-90 | makes the sync step: no live task is tombstoned, at most 200 are live, below 200 only tombstoned ones are missing, and the tombstones are the youngest thousand |
| TaskSnapshots.SnapshotRow.TombstoneTask | backend/convex/agentTaskSnapshots.ts:143-159 | makes the delete step: the id's only tombstone is the youngest of at most a thousand, older ones go only at that bound, and exactly the other live tasks stay |

## Left out

- Sockets, QUIC, TLS, TURN, JSON, HTTP routing, SSE and websocket byte splicing, presence pushes and logging: streams are byte sequences, transports and connections are ids, JSON parsing of headers is a parameter.
- Cryptography: HMAC and SHA-256 are parameters of the string functions, a verified signature is an input, and nothing is claimed about forging; constant-time comparison is plain equality.
- Convex sessions, device-ownership lookups and password validation: their verdict (user, plan) is an input of the step. In `TaskSnapshots` the ownership checks, push notifications, legacy-row clean-up and observation time are left out.
- Object identity in Go: tunnels, buckets and device records are values in maps, tunnels being compared by transport id as the source does; a clean-up that deletes the record a running `CheckAllowed` still holds is therefore not modelled.
- Clocks: steps carry readings that never go back along a run; readings taken by different goroutines before the lock and applied out of order, wall-clock jumps and time zones are not modelled (a date is a day number).
- Bandwidth.BandwidthManager.CheckAllowed: the method runs without interference, while the source reads the load and the usage under two locks in a row; what can come between its readings is the subject of `ReadingsBand` and `CheckErrsByLoadOnly`, and its locked reset is the step `ZeroStale` of every run.
- `WsTunnel` starts where the read loop does; the "registered" reply before it is a step of `TunnelRegistry`, and calls it delays are not modelled. A write that never returns is a run in which its step does not come.
- `ExposeRoutes` models a relay with an expose domain; without one nothing is provisioned automatically.
- A policy's directives are read as the relay reads them, with its notion of white space and letter case; that a browser ignores a repeated directive is not modelled.
- ReplayGuard.AcceptedIff: device ids hold no NUL, as header values cannot; `AcceptedByKey` is the same for any ids.
- ReplayGuard.NoSelftestReplay: clock readings are below 2^62 ns, so that wrap-around of the int64 skew cannot join distant instants.
- SignedStrings.CanonicalIsInjective: method, device id, timestamp and nonce hold no newline, as HTTP tokens and header values cannot; the path may.
- Floating-point rounding: token counts, multipliers and load ratios are reals.
- Persistence in `BandwidthManager.load` and `save`, `GetStats`, `SummaryFor` and other display fields; int64 overflow of byte counters.
- `stripFrameBlockingHeaders`, `handleExposeRegister`: non-ASCII case mapping is exact only for runes whose lower case is ASCII, which is what the comparisons need.
- Chunk sizes `io.CopyN` uses inside one chunk: the counting writer is proved for any sequence of writes instead.
- Error and log texts, and which of several expose-format messages is sent.
- `setPassword` rotation against in-flight registrations, `bus.go` fan-out, concurrency semaphores, alias shadowing, billing labels, placement scoring, `listRescueCommandsForDevice`, the admin enqueue path, and the access channel.
