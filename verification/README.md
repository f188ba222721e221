# 3x-ui control plane: a Dafny model

3x-ui is a Go panel that keeps a set of live network resources in line with a
database: embedded AmneziaWG devices, their outbound tunnels, MTProto proxy
processes, UDP relay sessions, port-forward listeners and host IPv6 aliases.
This project models the parts where being in line is hard to get right, and
proves what they promise for every input, every run and every interleaving.

Four kinds of code are covered.

- **Reconcilers over runs.** `AwgManager` (with `V6Alias`, `AwgAliases` and
  `PortForwardSet`), `OutboundManager` and `MtprotoManager` are step systems. Every build,
  configuration, bind, command and scrape may fail. Their invariants hold after
  every run of operations.
- **Concurrent protocols.** `UdpRelay` and `EventBus` are state machines whose
  steps are the code between two lock boundaries, taken in any order. The
  collector of `MtprotoManager` is interleaved with restarts in the same way.
- **Arithmetic and loops with measures.** `Jalali`, `MtprotoBilling` (joined with
  the collector in `MtprotoCharges`), `DirectionalCharge`, `RateLimiter`, `ForwardedPorts` and `UniqueNames`.
- **Codecs and rewrites.** `DnsRewrite`, `Socks5Udp` and `Obfuscation`.

`Text`, `Int64`, `Collections`, `Runs` and `AwgTypes` hold the shared vocabulary:
Go's string and integer operations with their round trips, runs of a step system,
and the AmneziaWG records.

Where the source changes state in place there is a class whose methods are tied
to a step function on abstract states; the theorems over runs are about those
step functions.

## Assumptions about the environment

- A failed `IpcSet` leaves the configuration of the device as it was.
- What `normalizedListenFP` makes of a listen address is a fixed field of the
  instance.
- A scrape made with the port and token of one MTProto process incarnation is
  answered by that incarnation or not at all.
- The traffic counters an MTProto process reports are non-negative int64 values.
- Clock readings are not before Go's zero time. They may come in any order, since
  they are taken before the lock.
- Sockets, devices, processes, `ip` commands, clocks, random draws, base64, JSON
  text and `fmt.Sprint` are parameters or environment choices.
- Strings are sequences of code points.

## Where the code and its promises differ

- Aliases: additions run before removals, so two peers that swap addresses in one
  edit both lose their alias (`AwgAliases.SwapLosesBoth`). A rebuild that fails
  has already forgotten the old interface, and its aliases stay behind
  (`AwgAliases.FailedRebuildLeavesAliases`). `AwgAliases.AliasesExactIff` gives the
  exact condition over runs, `V6Alias.MoveExact` that of one move, and
  `AwgAliases.PeerAliasedIff` says exactly when a peer is without an alias
  meanwhile.
- `RateLimiter`: with clock readings out of order a sweep can drop an entry that
  still counts, and an event is sent twice within the cooldown
  (`RateLimiter.BackwardClockDiffers`). `RateLimiter.PruningInvisibleIff` and
  `RateLimiter.AllowedApartIff` say exactly when; a clock that does not run
  backwards is a sufficient case.
- `MtprotoBilling`: the byte guard of the process knows one price. Once a sample is
  billed at another, guard and bill can part
  (`MtprotoBilling.PriceChangeSplitsGuard`). `MtprotoBilling.GuardMeetsBillIff`
  gives the exact condition on the price schedule: they agree for all sample sizes
  if and only if every sample of the client is billed at the price of the guard.
- `UdpRelay`: closing the relay is final only if no handler is on its way to a
  session. `UdpRelay.SweepIsFinalIff` states that as an if-and-only-if, and
  `AwgManager.RelayClosesAfterDevice` that the device is always closed first.
- `Obfuscation`: the validator compares rekey and reject times, a blank side
  standing for WireGuard's default. A rekey field of white space only passes the
  comparison although it means no time (`Obfuscation.BlankRekeyIsAccepted`);
  `Obfuscation.AcceptedInOrderIff` says exactly when the comparison was between
  two times, and when the rule holds with the default in its place. The field is
  sent to the device as it is; what the device makes of it is not modelled.
  Inbounds are put in canonical form first, which rules the case out
  (`Obfuscation.CanonicalInOrder`); the outbound path is not.
- `Socks5Udp`: section 7 of RFC 1928 has an implementation without reassembly
  drop fragments. Neither decoder looks at FRAG (`Socks5Udp.FragIsIgnored`), so
  the rule holds of a datagram exactly as `Socks5Udp.FragmentRuleIff` says.
- `UniqueNames`: a list that holds one proxy map twice cannot get distinct names;
  `UniqueNames.EnsureUniqueProxyNames` states that as an if-and-only-if.

## Model

| member | source | states |
|---|---|---|
| `MtprotoManager.Manager.EnsureLocked` | internal/mtproto/manager.go:379-437 | one ensure takes the map of processes to the state the no-op, reload or restart decision prescribes, with every failure path |
| `MtprotoManager.EnsureOutcome` | internal/mtproto/manager.go:369-437 | from the fingerprints and the environment alone: the process goes on, with its baseline, when it is alive with the wanted structure and has or takes the wanted secrets; otherwise a new one serves the instance as wanted, or none does; a failed config write changes nothing, and no other id is touched |
| `MtprotoManager.EnsureContinuesIff` | internal/mtproto/manager.go:379-437 | incarnation and baseline survive an ensure if and only if the process goes on or its new config cannot be written |
| `MtprotoManager.Manager.Remove` | internal/mtproto/manager.go:440-449 | exactly the entry of the id goes away |
| `MtprotoManager.Manager.Reconcile` | internal/mtproto/manager.go:454-474 | unwanted processes go first, in any order, then every wanted instance is ensured in turn |
| `MtprotoManager.ReconcileOutcome` | internal/mtproto/manager.go:454-474 | when nothing fails, exactly the wanted processes remain, as wanted, and each that was there continues if and only if it was alive with the wanted structure and had or took the secrets |
| `MtprotoManager.ReconcileIsIdempotent` | internal/mtproto/manager.go:454-474 | repeating it while the processes run changes nothing |
| `MtprotoManager.Manager.StopAll` | internal/mtproto/manager.go:477-485 | nothing stays managed |
| `MtprotoManager.Manager.TakeSnapshots` | internal/mtproto/manager.go:503-513 | the snapshots are the running entries, each once, with their identity and baseline |
| `MtprotoManager.Manager.StoreBaseline` | internal/mtproto/manager.go:547-551 | a baseline is stored only in the very entry that was scraped, never in its replacement |
| `MtprotoManager.ScrapeDeltas` | internal/mtproto/manager.go:518-545 | one scrape bills exactly the positive growth of clients seen before, once each, with the tag, multiplier and routing of the scraped process, and reports exactly the connected ones |
| `MtprotoManager.RowDirections` | internal/mtproto/manager.go:522-544 | a row per client that was seen before and grew: up is the growth of the bytes in, down that of the bytes out |
| `MtprotoManager.RoundBillsAndStores` | internal/mtproto/manager.go:503-552 | an undisturbed round bills the growth since the baseline and stores the reading as the new one |
| `MtprotoManager.ReconciledEvolves` | internal/mtproto/manager.go:379-474 | however a reconcile goes, an entry is the old one with its baseline intact or a fresh incarnation without one |
| `MtprotoManager.RunKeepsInv` | internal/mtproto/manager.go:379-554 | over every interleaving of the collector with ensure, reload, restart, remove and stop: baselines are the last reading of their own incarnation |
| `MtprotoManager.BilledIsIncrements` | internal/mtproto/manager.go:490-554 | in every interleaving the bytes billed to an incarnation's client are the increments of that incarnation's own readings, so a restart neither bills twice nor measures against old counters |
| `MtprotoManager.BilledWithinGrowth` | internal/mtproto/manager.go:490-554 | with monotone counters the bill never exceeds the growth between first and last sight, and equals it when every scrape showed the client |
| `MtprotoBilling.PhysicalQuota` | internal/mtproto/manager.go:274-294 | the 128-by-64-bit division cannot fault and the result is a non-negative int64 |
| `MtprotoBilling.FactorIsMultiplier` | internal/mtproto/manager.go:278-281 | a multiplier within its bounds is the price itself, any other means the default |
| `MtprotoBilling.QuotaIsLeast` | internal/mtproto/manager.go:274-294 | the quota is the least byte count whose scaled bill reaches the billable quota |
| `MtprotoBilling.QuotaMonotone` | internal/mtproto/manager.go:274-294 | monotone in the quota, antitone in the multiplier |
| `MtprotoBilling.MtprotoJob.BillTraffic` | internal/web/job/mtproto_job.go:33-65 | the charge and the carried fraction are those of exact 128-bit arithmetic; results stay within int64 |
| `MtprotoBilling.BilledIsMetered` | internal/web/job/mtproto_job.go:33-65 | over every sequence of polls, price changes and saturated bills included, what a client was billed is what an exact meter shows: each run at one price is billed as one scaled total |
| `MtprotoBilling.BilledTotalExact` | internal/web/job/mtproto_job.go:33-65 | so at one price the carried remainders lose nothing: the total billed is the scaled total |
| `MtprotoBilling.GuardMeetsBillIff` | internal/mtproto/manager.go:271-294 | for a schedule of clients and prices: guard and bill agree on every quota, whatever the sample sizes, if and only if every sample of the client is billed at the price of the guard |
| `MtprotoBilling.GuardMeetsBill` | internal/mtproto/manager.go:271-294 | at one price the byte guard given to the process trips exactly when the accumulated bill reaches the billable quota |
| `MtprotoBilling.PriceChangeSplitsGuard` | internal/mtproto/manager.go:271-294 | counterexample: a sample at double price fills a quota the guard set at the single price does not |
| `MtprotoCharges.BillRow` | internal/web/job/mtproto_job.go:97-100 | a row is billed up, then down, through one carry |
| `MtprotoCharges.BillRows` | internal/web/job/mtproto_job.go:85-100 | what the loop charges a client is what the rows add to its bill, fractions of earlier polls carried on |
| `MtprotoCharges.ClientKeyInjective` | internal/web/job/mtproto_job.go:40 | tag and e-mail share a key only with themselves when tags hold no NUL |
| `MtprotoCharges.SampledIsCounted` | internal/mtproto/manager.go:490-554 | over every interleaving and restart, the samples billed to a client hold exactly what its processes counted between readings |
| `MtprotoCharges.ChargedIsScaledCount` | internal/web/job/mtproto_job.go:78-100 | so at one price the charge is the scaled sum of those counts |
| `MtprotoCharges.ChargedWithinGrowth` | internal/web/job/mtproto_job.go:78-100 | with monotone counters the charge is at most the scaled growth summed over the processes of the client, and exactly that when every scrape showed it |
| `AwgTypes.FingerprintFaithful` | internal/amneziawgnet/manager.go:261-266 | two instances share a fingerprint exactly when MTU, addresses and listen value agree |
| `AwgTypes.MtuLeavesRoom` | internal/amneziawg/params.go:42-47 | without a configured MTU each byte of S4 takes one off the default, down to 1280 |
| `AwgManager.Manager.ApplyAliasDiff` | internal/amneziawgnet/manager.go:146-186 | the aliases move from the old instance's to the new one's, failing commands left out |
| `AwgManager.Manager.Close` | internal/amneziawgnet/manager.go:73-79 | forwards, device and relay are closed one after the other, in that order |
| `AwgManager.Manager.CloseAfterFailure` | internal/amneziawgnet/manager.go:229-232 | a failed Configure has closed the device; relay and forwards are closed after it |
| `AwgManager.Manager.ReconfigureLocked` | internal/amneziawgnet/manager.go:151-186 | the in-place half: no-op, render failure, failed and successful IpcSet |
| `AwgManager.Manager.ReconcileForwards` | internal/amneziawgnet/manager.go:167-174 | the port forwards follow the new instance even when nothing else does |
| `AwgManager.Manager.RebuildLocked` | internal/amneziawgnet/manager.go:188-247 | the rebuild half: close first, then build, configure, register, move aliases, with every failure exit |
| `AwgManager.Manager.EnsureLocked` | internal/amneziawgnet/manager.go:133-247 | the whole new state and the reported outcome of one ensure, keeping the device invariant |
| `AwgManager.EditInPlace` | internal/amneziawgnet/manager.go:117-186 | an edit that keeps MTU, addresses and listen value keeps the running device, with exactly one IpcSet when the text differs and none otherwise; a failure changes nothing but the log |
| `AwgManager.EditRebuilds` | internal/amneziawgnet/manager.go:188-247 | any other ensure closes the old device first and ends with a new one configured as wanted, or without an entry |
| `AwgManager.RebuildsIff` | internal/amneziawgnet/manager.go:117-247 | a device is built or closed if and only if a managed interface changes MTU, addresses or listen value, or a new one can be built |
| `AwgManager.Manager.Remove` | internal/amneziawgnet/manager.go:299-310 | aliases are dropped, the device closed, the entry forgotten |
| `AwgManager.Manager.Reconcile` | internal/amneziawgnet/manager.go:271-293 | the unwanted in whatever order the map yields, then every wanted one |
| `AwgManager.Manager.StopAll` | internal/amneziawgnet/manager.go:313-321 | every entry is stopped |
| `AwgManager.RunKeepsInv` | internal/amneziawgnet/manager.go:117-321 | after every run with any failures each entry describes its own open device, its port forwards were reconciled with its own instance, no two share a device, and every other device ever built is closed |
| `AwgManager.RelayClosesAfterDevice` | internal/amneziawgnet/manager.go:73-79 | in every run, failure paths included, a relay is closed only after its device |
| `AwgManager.SuccessfulRunSettles` | internal/amneziawgnet/manager.go:133-247 | after ensures that all succeeded every desire is exactly recorded |
| `AwgManager.ReconcileSettles` | internal/amneziawgnet/manager.go:271-293 | a successful reconcile leaves exactly the wanted interfaces, as wanted |
| `AwgManager.ReconcileIsIdempotent` | internal/amneziawgnet/manager.go:271-293 | repeating a successful reconcile changes nothing: no rebuild, no close, no IpcSet, no `ip` command |
| `AwgAliases.StepExact` | internal/amneziawgnet/manager.go:146-247 | one step leaves the host with exactly the wanted aliases if and only if it is safe, decided before the step |
| `AwgAliases.AliasesExactIff` | internal/amneziawgnet/manager.go:133-321 | throughout a run the host holds exactly the wanted aliases if and only if every step was safe |
| `V6Alias.DesiredV6Aliases` | internal/amneziawgnet/v6alias.go:58-73 | per email the alias of its last eligible peer; none when aliases are inactive |
| `V6Alias.DesiredAliases` | internal/amneziawgnet/v6alias.go:39-73 | who gets an alias, from the fields themselves: the last peer of the email with an IPv6 address, on the IPv6 interface if one is named and the general one if not |
| `V6Alias.DiffV6Aliases` | internal/amneziawgnet/v6alias.go:82-97 | what to add and to remove, exactly, and nothing when nothing changed |
| `V6Alias.Host.ApplyV6Aliases` | internal/amneziawgnet/v6alias.go:120-127 | every addition is issued before any removal; the host ends as those commands leave it |
| `V6Alias.EffectsAfter` | internal/amneziawgnet/v6alias.go:120-165 | what the host holds after any number of the commands, failures included |
| `V6Alias.MoveExact` | internal/amneziawgnet/v6alias.go:82-127 | a move ends with exactly what is wanted if and only if no removed alias is still wanted by anyone |
| `V6Alias.NeverUnaliased` | internal/amneziawgnet/v6alias.go:115-127 | whatever commands fail, a peer has its old or its new alias at every moment of a move if and only if removing the old one fails, or the new one gets there (or was there) and is not removed |
| `AwgAliases.PeerAliasedIff` | internal/amneziawgnet/manager.go:146-247 | the same at every step of every run that found the aliases as wanted, with failing commands |
| `AwgAliases.SafeRunKeepsPeersAliased` | internal/amneziawgnet/manager.go:133-321 | in a run of safe steps without failed commands no peer is ever without an alias |
| `AwgAliases.SwapLosesBoth` | internal/amneziawgnet/v6alias.go:82-127 | counterexample, from the start of the program: two peers of one interface that swap addresses lose both aliases although nothing fails |
| `AwgAliases.FailedRebuildLeavesAliases` | internal/amneziawgnet/manager.go:188-247 | counterexample, from the start of the program: a failed rebuild leaves aliases nobody wants |
| `OutboundManager.EgressServer.SetStack` | internal/amneziawgnet/egress.go:78-97 | device and DNS server of a tag are recorded, the cache flushed exactly on a change |
| `OutboundManager.EgressServer.DeleteStack` | internal/amneziawgnet/egress.go:100-106 | nothing about the tag remains |
| `OutboundManager.EgressServer.Listen` | internal/amneziawgnet/egress.go:110-126 | idempotent; reports whether it listens |
| `OutboundManager.EgressServer.Close` | internal/amneziawgnet/egress.go:130-148 | stops listening and drops tracked connections |
| `OutboundManager.Manager.EnsureLocked` | internal/amneziawgnet/outbound_manager.go:101-144 | manager and registry after one ensure, with failed renders, IpcSets and builds |
| `OutboundManager.EditInPlace` | internal/amneziawgnet/outbound_manager.go:101-127 | with address and MTU unchanged the running device is kept, with one IpcSet when the text differs; the DNS cache is flushed exactly when the server changes |
| `OutboundManager.EditRebuilds` | internal/amneziawgnet/outbound_manager.go:129-144 | otherwise the old device is closed first and the tag ends with a new one, registered, or with none |
| `OutboundManager.RebuildsIff` | internal/amneziawgnet/outbound_manager.go:101-144 | a device is built or closed if and only if the text renders and a known tag changes address or MTU, or a new one can be built |
| `OutboundManager.Manager.BuildAndRegister` | internal/amneziawgnet/outbound_manager.go:133-144 | a device is registered only once it is configured, and closed otherwise |
| `OutboundManager.Manager.Remove` | internal/amneziawgnet/outbound_manager.go:147-158 | the device is closed and its tag unregistered |
| `OutboundManager.RemoveOutcome` | internal/amneziawgnet/outbound_manager.go:147-158 | exactly the tag leaves manager and registry, its device closed and its cache flushed |
| `OutboundManager.Manager.StopAll` | internal/amneziawgnet/outbound_manager.go:162-171 | manager and registry are empty and nothing listens |
| `OutboundManager.Manager.Reconcile` | internal/amneziawgnet/outbound_manager.go:57-97 | the steps a reconcile takes; an empty list clears everything and releases the listener |
| `OutboundManager.RunKeepsInv` | internal/amneziawgnet/outbound_manager.go:57-171 | at every operation boundary of every run the registry's tags and devices are exactly the manager's, none closed, no two shared, every other device closed |
| `OutboundManager.EmptyReconcileClears` | internal/amneziawgnet/outbound_manager.go:61-72 | converging to no tunnels empties both sides, closes every device and stops listening |
| `OutboundManager.EnsureTouchesOne` | internal/amneziawgnet/outbound_manager.go:101-144 | an ensure changes nothing recorded under another tag |
| `OutboundManager.EnsuresAreIdempotent` | internal/amneziawgnet/outbound_manager.go:57-144 | ensuring a list again after it succeeded changes nothing, not even a DNS cache |
| `OutboundManager.ReconcileSettles` | internal/amneziawgnet/outbound_manager.go:57-97 | a successful reconcile leaves exactly the wanted tunnels, as wanted |
| `OutboundManager.ReconcileIsIdempotent` | internal/amneziawgnet/outbound_manager.go:57-97 | repeating a whole successful reconcile can at most start listening; nothing at all changes exactly when it listened already or cannot bind again |
| `OutboundManager.EmptyReconcileIsIdempotent` | internal/amneziawgnet/outbound_manager.go:61-72 | repeating an empty reconcile changes nothing |
| `UdpRelay.UDPRelay.PublishOrYield` | internal/amneziawgnet/relay.go:412-424 | the first session for a source is published, a later one is closed and the first used |
| `UdpRelay.UDPRelay.Retire` | internal/amneziawgnet/relay.go:435-444 | a pump removes only its own entry |
| `UdpRelay.UDPRelay.Close` | internal/amneziawgnet/relay.go:460-467 | every published session is closed and the table emptied |
| `UdpRelay.RunKeepsInv` | internal/amneziawgnet/relay.go:401-467 | the protocol invariant over every interleaving of handlers, pumps and Close |
| `UdpRelay.TableIsLiveSessions` | internal/amneziawgnet/relay.go:401-467 | the table is exactly the live published sessions, each under its own source |
| `UdpRelay.OneLiveSessionPerSource` | internal/amneziawgnet/relay.go:401-429 | a source never has two live sessions |
| `UdpRelay.PacketGetsSession` | internal/amneziawgnet/relay.go:401-429 | an undisturbed packet from a source without a session gets one, published under that source with its pump running, and nothing else changes |
| `UdpRelay.RetireSparesOthers` | internal/amneziawgnet/relay.go:434-456 | a late pump exit never evicts another session |
| `UdpRelay.QuiescentMeansClosed` | internal/amneziawgnet/relay.go:401-467 | once all is quiet every session ever associated is closed, losers of a race included |
| `UdpRelay.SweepIsFinalIff` | internal/amneziawgnet/relay.go:401-467 | once no packet comes in, the table stays empty after Close in every continuation if and only if no handler was on its way to a session |
| `EventBus.Bus.PublishEvent` | internal/eventbus/bus.go:97-106 | never blocks; a full buffer drops the event |
| `EventBus.PublishOutcome` | internal/eventbus/bus.go:97-106 | with room the event comes last in the buffer; without, nothing changes |
| `EventBus.Bus.SubscribeName` | internal/eventbus/bus.go:58-80 | a name already registered is replaced; after Stop nothing happens |
| `EventBus.SubscribeOutcome` | internal/eventbus/bus.go:58-80 | the names are the old ones with this one added; it comes last, as a fresh incarnation with an empty queue from the next event on; one it replaces is told to quit, all others keep place, queue and offers; after Stop nothing changes |
| `EventBus.Bus.UnsubscribeName` | internal/eventbus/bus.go:83-93 | the entry is told to quit and removed |
| `EventBus.UnsubscribeOutcome` | internal/eventbus/bus.go:83-93 | exactly the entry of the name goes and is told to quit |
| `EventBus.Bus.OfferNext` | internal/eventbus/bus.go:125-129 | a non-blocking send that drops the event on a full queue |
| `EventBus.Bus.FanOut` | internal/eventbus/bus.go:115-136 | under the lock one event is offered to every subscriber in order |
| `EventBus.DispatchReachesAll` | internal/eventbus/bus.go:115-136 | the oldest event in the buffer is offered to every registered subscriber and to no other |
| `EventBus.SubscriberGetsNextEvent` | internal/eventbus/bus.go:58-136 | in every run, a subscriber that joins has the next published event in its queue once it is dispatched |
| `EventBus.WorkerDrains` | internal/eventbus/bus.go:140-152 | a worker left alone handles its queue oldest first |
| `EventBus.StopIsFinal` | internal/eventbus/bus.go:169-175 | after Stop nobody is registered any more, whatever goes on |
| `EventBus.RunKeepsInv` | internal/eventbus/bus.go:41-175 | the bus invariant over every interleaving of publishers, dispatcher, workers, Subscribe, Unsubscribe and Stop |
| `EventBus.AcceptedIsOrdered` | internal/eventbus/bus.go:115-136 | accepted events are strictly increasing and are exactly the offers that found room |
| `EventBus.DeliveryInOrder` | internal/eventbus/bus.go:41-175 | in every run handled events followed by the queue are in publication order without repeats, exactly those since subscribing that found fewer than 64 waiting; queues and buffer stay within bounds |
| `EventBus.RegisteredMissNothing` | internal/eventbus/bus.go:115-152 | a registered subscriber misses an event only by having 64 undelivered before it |
| `EventBus.NamesStayDistinct` | internal/eventbus/bus.go:58-93 | registered names stay distinct |
| `RateLimiter.KeyInjective` | internal/eventbus/filter.go:25-27 | two events share a key exactly when type and source agree |
| `RateLimiter.RateLimiter.PruneLocked` | internal/eventbus/filter.go:42-52 | a due prune leaves only entries inside the cooldown |
| `RateLimiter.RateLimiter.Allow` | internal/eventbus/filter.go:25-36 | the answer and the new table, with Go's saturating time difference |
| `RateLimiter.PruningInvisibleIff` | internal/eventbus/filter.go:25-52 | for clock readings in any order: all answers are those of a limiter that never prunes if and only if no call found its key swept early, decided from the readings and the reference alone |
| `RateLimiter.AllowedApartIff` | internal/eventbus/filter.go:25-52 | likewise: allowed events with one key are always a cooldown apart if and only if no key was swept early |
| `RateLimiter.PruningIsInvisible` | internal/eventbus/filter.go:25-52 | with a clock that does not run backwards that condition holds, so every answer is that of a limiter that never prunes |
| `RateLimiter.AllowedAreApart` | internal/eventbus/filter.go:25-36 | with a clock that does not run backwards two allowed events with one key are at least the cooldown apart |
| `RateLimiter.AllowedIff` | internal/eventbus/filter.go:25-36 | with such a clock an event is sent if and only if a cooldown has passed since every event sent with its key and since the zero time |
| `RateLimiter.EntriesStayYoung` | internal/eventbus/filter.go:42-52 | the table never keeps entries older than twice the cooldown |
| `RateLimiter.BackwardClockDiffers` | internal/eventbus/filter.go:25-52 | counterexample: out-of-order clock readings change an answer |
| `Jalali.WalkForward` | internal/sub/remark_vars.go:427-441 | the forward loop ends on a valid date that many days after the reference |
| `Jalali.WalkBackward` | internal/sub/remark_vars.go:442-455 | the backward loop ends on a valid date that many days before the reference |
| `Jalali.GregorianToJalali` | internal/sub/remark_vars.go:415-456 | the result is a valid Jalali date as many days from the reference as the input |
| `Jalali.NextJalaliOrdinal` | internal/sub/remark_vars.go:458-479 | the ordinal counts Jalali days one by one |
| `Jalali.NextGregorianDay` | internal/sub/remark_vars.go:416-420 | the Julian Day Number formula counts Gregorian days one by one |
| `Jalali.ConversionUnique` | internal/sub/remark_vars.go:415-456 | a date has one conversion |
| `Jalali.ConversionFollowsCalendar` | internal/sub/remark_vars.go:415-479 | the next Gregorian day converts to the next Jalali day |
| `Jalali.ConversionOrders` | internal/sub/remark_vars.go:415-479 | conversion preserves and reflects the order of dates |
| `Jalali.ReferenceIsAnchor` | internal/sub/remark_vars.go:422-425 | the reference day number is that of 2024-01-01, which converts to 1402-10-11 |
| `Jalali.LeapRule` | internal/sub/remark_vars.go:471-479 | the listed remainders are the years with (25y + 11) mod 33 below 8; there are none before year 0 |
| `Jalali.YearStartClosed` | internal/sub/remark_vars.go:458-479 | the start of every year in closed form |
| `Jalali.CycleLength` | internal/sub/remark_vars.go:471-479 | 33 consecutive years have 12053 days |
| `Jalali.NewYearOf` | internal/sub/remark_vars.go:415-479 | the Julian Day Number of every New Year and of its eve in closed form |
| `Jalali.NewYears` | internal/sub/remark_vars.go:415-479 | 1400, 1402, 1403 and 1404 begin on 21 March 2021, 21 March 2023, 20 March 2024 and 21 March 2025 |
| `DirectionalCharge.AllocateLegacyCharge` | internal/xray/client_traffic.go:79-91 | a non-negative pair that sums to the charge, without overflow |
| `DirectionalCharge.ChargeConserved` | internal/database/traffic_direction_migration.go:42-51 | up plus down is the total; recorded parts never shrink when they fit; a balanced pair is unchanged |
| `DirectionalCharge.ChargeShares` | internal/database/traffic_direction_migration.go:42-51 | what is missing is split by the physical uplink share rounded down; parts that do not fit are scaled by their own share |
| `DirectionalCharge.FixedByShare` | internal/database/traffic_direction_migration.go:84-100 | in a fixed row both charges are split by the uplink share of its own traffic |
| `DirectionalCharge.MismatchIsExact` | internal/database/traffic_direction_migration.go:53-61 | the overflow-free selection predicate means up plus down differs from total |
| `DirectionalCharge.FixedIsBalanced` | internal/database/traffic_direction_migration.go:42-61 | a fixed row keeps its totals, is balanced and is not selected again |
| `DirectionalCharge.SelectBatch` | internal/database/traffic_direction_migration.go:72-80 | the next mismatched rows past the cursor, in order, at most a batch, missing none |
| `DirectionalCharge.UpdateBatch` | internal/database/traffic_direction_migration.go:84-100 | exactly the selected rows are fixed |
| `DirectionalCharge.Backfill` | internal/database/traffic_direction_migration.go:68-105 | the cursor loop ends and has visited exactly the mismatched rows, each once and in id order, fixing each from its original values |
| `DirectionalCharge.BackfillConserves` | internal/database/traffic_direction_migration.go:68-105 | totals are conserved, rows balanced, balanced rows untouched, nothing left to select |
| `DirectionalCharge.RerunCompletes` | internal/database/traffic_direction_migration.go:68-105 | a run cut short and repeated ends like an uninterrupted one |
| `ForwardedPorts.ParseForwardedPorts` | internal/amneziawg/portfwd.go:20-46 | the specs of the valid tokens in order, each once |
| `ForwardedPorts.SpecsAreCovered` | internal/amneziawg/portfwd.go:20-62 | the specs cover exactly the ports the text's tokens name |
| `ForwardedPorts.PrintedRange` | internal/amneziawg/portfwd.go:48-66 | a printed range is read as its two ends in order, or not at all when they are no ports or the wrong way round |
| `ForwardedPorts.PrintedSpecsCovered` | internal/amneziawg/portfwd.go:20-66 | a list of ports and ranges printed with commas or semicolons covers exactly the ports in one of them |
| `ForwardedPorts.ForwardedPortsInclude` | internal/amneziawg/portfwd.go:85-92 | true exactly on the covered ports |
| `ForwardedPorts.ExpansionIsCapped` | internal/amneziawg/portfwd.go:124-142 | an expansion lists distinct covered ports, as many as fit the limit, and all of them when they fit |
| `ForwardedPorts.ExpandUpTo` | internal/amneziawg/portfwd.go:124-142 | the nested loops with early exit and sort compute that expansion, ascending |
| `ForwardedPorts.ExpandForwardedPorts` | internal/amneziawg/portfwd.go:108-110 | ascending, covered, capped at 100, and exactly the covered set when it fits |
| `ForwardedPorts.ExceedsForwardedPortsCap` | internal/amneziawg/portfwd.go:117-119 | true exactly when more than 100 ports are covered |
| `PortForwardSet.DesiredPeerTargets` | internal/amneziawgnet/portfwd.go:115-135 | per email the target of its last peer that has one |
| `PortForwardSet.TargetsOfPeers` | internal/amneziawgnet/portfwd.go:115-135 | from the addresses themselves: the last reachable peer of the email, by its IPv4 address, and by IPv6 only when that is enabled and all it has |
| `PortForwardSet.ForwardingPeers` | internal/amneziawgnet/portfwd.go:139-152 | exactly the peers with email, port spec and target |
| `PortForwardSet.ProvidedPorts` | internal/amneziawg/portfwd.go:108-142 | a peer provides only ports its text names, and all of them when they fit the cap |
| `PortForwardSet.DesiredPortForwardKeys` | internal/amneziawgnet/portfwd.go:156-165 | exactly the wanted listeners, TCP and UDP |
| `PortForwardSet.ForwardedPortOwner` | internal/amneziawgnet/portfwd.go:169-178 | finds an owner exactly when some wanted listener uses the port, and a real one |
| `PortForwardSet.PortForwards.Reconcile` | internal/amneziawgnet/portfwd.go:186-225 | whatever attempts to bind fail: open listeners are recorded once, wanted and resolvable; still-wanted ones keep their identity; the socket of every wanted listener whose attempt was not refused is served |
| `PortForwardSet.PortForwards.Close` | internal/amneziawgnet/portfwd.go:241-249 | nothing stays open |
| `Socks5Udp.SendTo` | internal/amneziawgnet/relay.go:304-322 | the datagram layout of section 7 of RFC 1928 |
| `Socks5Udp.PumpReply` | internal/amneziawgnet/egress.go:567-601 | the same layout on the reply path |
| `Socks5Udp.NetworkOrder` | internal/amneziawgnet/relay.go:304-322 | the datagram byte for byte, the port with its high byte first |
| `Socks5Udp.RoundTrip` | internal/amneziawgnet/relay.go:304-375 | either decoder recovers port, payload and all the format can carry of the address |
| `Socks5Udp.RoundTripExact` | internal/amneziawgnet/egress.go:567-653 | the address itself survives if and only if it is a real address without a zone |
| `Socks5Udp.DecodersAgree` | internal/amneziawgnet/egress.go:460-499 | on every byte string without a domain the two decoders agree, rejections included |
| `Socks5Udp.AcceptedIff` | internal/amneziawgnet/relay.go:327-375 | exactly which byte strings each decoder accepts, domains included |
| `Socks5Udp.ReencodeExact` | internal/amneziawgnet/relay.go:304-375 | encoding a decoded datagram gives it back if and only if RSV and FRAG are zero |
| `Socks5Udp.DomainRoundTrip` | internal/amneziawgnet/egress.go:605-617 | a domain datagram is read back by both decoders; an empty name is ignored on egress, and the relay takes only a name that parses as an address |
| `Socks5Udp.FragIsIgnored` | internal/amneziawgnet/egress.go:460-499 | on every byte string both decoders return the same whatever FRAG is |
| `Socks5Udp.FragmentRuleIff` | internal/amneziawgnet/egress.go:460-499 | a decoder accepts only with FRAG zero if and only if FRAG is zero or type and length are rejected |
| `Socks5Udp.FragmentsAreNotDropped` | internal/amneziawgnet/egress.go:460-499 | every datagram of either encoder made a fragment is still decoded whole |
| `UniqueNames.FirstFree` | internal/sub/clash_service.go:289-295 | the numbering loop ends and yields the first free candidate |
| `UniqueNames.TriedWithin` | internal/sub/clash_service.go:289-295 | pigeonhole: fewer than n used names cannot block n candidates |
| `UniqueNames.EnsureUniqueProxyNames` | internal/sub/clash_service.go:282-299 | for every list: each turn takes the first free name, starting from the name its proxy then has; each proxy ends named as in its last turn with every other field untouched; names are pairwise distinct if and only if no proxy map is listed twice |
| `UniqueNames.AssignedKeeps` | internal/sub/clash_service.go:282-299 | a name not taken earlier is kept |
| `UniqueNames.ProxyNamesAcceptable` | internal/sub/clash_service.go:278-299 | all names non-empty and pairwise distinct; a list already so keeps every name |
| `UniqueNames.WireguardPeerEmail` | internal/database/db.go:593-610 | an unused, non-empty e-mail without spaces, the first free for its base |
| `UniqueNames.MtprotoInboundClientEmail` | internal/database/db.go:757-770 | likewise for MTProto inbounds |
| `UniqueNames.MigratePeers` | internal/database/db.go:524-532 | the peers of an inbound get e-mails that are new and pairwise distinct |
| `DnsRewrite.DnsQTypeValue` | internal/database/db.go:1936-1945 | the loop builds the encoding QTypeRoundTrip is about |
| `DnsRewrite.QTypeRoundTrip` | internal/database/db.go:1936-1945 | the encoding decodes to exactly the list and is never a numeric 0 |
| `DnsRewrite.LegacyDNSBlockTypes` | internal/database/db.go:1892-1908 | the nested loops collect the legal types of every shape the value can have |
| `DnsRewrite.BlockTypesOfShapes` | internal/database/db.go:1892-1908 | a list whose items print as one or more types, or one such item by itself, is read as those types in order |
| `DnsRewrite.BlockTypesOfValues` | internal/database/db.go:1892-1908 | so a list of numbers, a bare number and a comma-separated text are read as the types they hold |
| `DnsRewrite.LegacyDNSOutboundRules` | internal/database/db.go:1912-1932 | builds the rules RulesGiveLegacyAnswer is about |
| `DnsRewrite.RulesGiveLegacyAnswer` | internal/database/db.go:1912-1932 | for every mode, block list and query type, first-match evaluation gives the legacy answer |
| `DnsRewrite.RewriteKeepsAnswers` | internal/database/db.go:1853-1867 | rewriting settings keeps the answer to every query under the old policy |
| `DnsRewrite.RewrittenPolicy` | internal/database/db.go:1853-1931 | what the rewritten rules answer, from the stored values: drop and skip in any case and padding drop and let through, every other text or value refuses; blocked and address queries as the old policy had it |
| `DnsRewrite.RewrittenSettings` | internal/database/db.go:1853-1867 | legacy keys gone, existing non-null rules kept, every other key untouched |
| `DnsRewrite.RewriteOutboundOnce` | internal/database/db.go:1841-1868 | an outbound changes exactly when it is dns with a legacy key, and only once |
| `DnsRewrite.DnsInAnyCase` | internal/database/db.go:1846-1848 | the protocol is recognised in any mix of case |
| `DnsRewrite.RewriteOutboundsOnce` | internal/database/db.go:1840-1868 | rewriting the decoded outbounds again changes nothing |
| `DnsRewrite.RewriteLegacyKeys` | internal/database/db.go:1840-1868 | the loop rewrites every outbound and reports whether anything changed |
| `DnsRewrite.RewriteDNSOutboundLegacyKeys` | internal/database/db.go:1828-1877 | blank, invalid and unaffected texts stay as stored |
| `DnsRewrite.FixRulesOnce` | internal/database/db.go:1995-2001 | one pass leaves no numeric 0, touches only such rules, and is enough |
| `DnsRewrite.FixOutboundsOnce` | internal/database/db.go:1986-2002 | fixing the decoded outbounds again changes nothing |
| `DnsRewrite.FixGivesIntendedAnswer` | internal/database/db.go:1976-2001 | after the fix every query gets the answer a reader of 0 as query type 0 would give |
| `DnsRewrite.GeneratedNeedNoFix` | internal/database/db.go:1912-1945 | what the first rewrite generates needs no fix |
| `DnsRewrite.RewriteQTypeZero` | internal/database/db.go:1986-2002 | the loops fix every dns outbound and report whether anything changed |
| `DnsRewrite.RewriteDNSOutboundQTypeZero` | internal/database/db.go:1978-2011 | blank, invalid and unaffected texts stay as stored |
| `DnsRewrite.BothRewritesOnce` | internal/database/db.go:1828-2011 | rewriting a rewritten text reports no change, for both rewrites, given only that the configuration just stored is read back as it was |
| `Obfuscation.RangeRoundTrip` | internal/amneziawg/params.go:383-401 | a printed range parses back to itself |
| `Obfuscation.NumberRoundTrip` | internal/amneziawg/params.go:383-401 | a printed number parses back to a one-value range |
| `Obfuscation.ValidateObfChain` | internal/amneziawg/params.go:235-258 | accepts exactly the chains whose tags are closed and known |
| `Obfuscation.AcceptedWhen` | internal/amneziawg/params.go:143-224 | the validator finds no fault exactly when every bound and every check on text holds |
| `Obfuscation.AcceptedInOrderIff` | internal/amneziawg/params.go:196-222 | in accepted parameters the comparison was between two times except exactly with a white-space rekey field, and the rule with defaults holds except exactly when besides the reject window starts by 120 |
| `Obfuscation.CanonicalInOrder` | internal/amneziawg/params.go:260-264 | with the rekey field in canonical form neither exception can arise |
| `Obfuscation.BlankRekeyIsAccepted` | internal/amneziawg/params.go:209-222 | counterexample: the comparison is passed although the rekey field means no time |
| `Obfuscation.GenerateHValues` | internal/amneziawg/params.go:125-135 | one value from each band |
| `Obfuscation.HValuesAreApart` | internal/amneziawg/params.go:123-135 | H1 to H4 are distinct, ascending, at least 5 and valid |
| `Obfuscation.DrawHandshakePadding` | internal/amneziawg/params.go:58-64 | the redraw loop ends at the latest with a good draw, and S1 + 56 differs from S2 |
| `Obfuscation.GenerateObfuscation31` | internal/amneziawg/params.go:51-111 | every outcome renders numbers within the promised bounds and passes the validator |
| `Obfuscation.RekeyPrecedesReject` | internal/amneziawg/params.go:84-92 | every rekey time precedes every reject time by at least 30, through print and parse |
| `Obfuscation.RenderReadsBack` | internal/amneziawg/params.go:70-103 | every other text means the window or number drawn for it |
| `Obfuscation.PromisedIsAccepted` | internal/amneziawg/params.go:51-224 | every outcome of the generator passes the validator |

## Left out

- Real sockets, gVisor, amneziawg-go, process control and HTTP scraping: only their success or failure is modelled.
- SQL, GORM and schema migration: the row arithmetic and the cursor loop are modelled, the queries are not.
- JSON, base64 and address-literal parsing and printing: parameters; where a theorem needs a round trip it says of which value.
- Subscription links and config rendering, the HTTP controllers, the command line and the front end: wide field copying that would only add easy members.
- `internal/pia`: a client of a network service, with a smaller instance of the concurrency covered here.
- Formatting of dates and time zones around the Jalali conversion.
- The association state of the egress UDP reader (which client may send, idle timeouts, name resolution): only its datagram codec is modelled.
- Panics recovered inside event handlers: a handler that panics counts as done.
- AwgManager.Manager.ReconcileForwards: records only which instance the forwards follow; what opens and closes is PortForwardSet, and the peer index is not modelled.
- MtprotoCharges.BillRows: returns the charges per row and direction; adding them up per e-mail, which saturates at the int64 maximum, is not modelled.
- MtprotoCharges.SampledIsCounted: is about processes scraped under one tag; a process whose tag is edited while it runs is left to the per-process theorems.
- Obfuscation.AcceptedInOrderIff: says what was compared, not what a device does with a field of white space, which reaches it unchanged.
- Obfuscation.DrawHandshakePadding: requires that some later draw is not S1 + 56; with what probability is not modelled.
- DirectionalCharge.Backfill: requires rows already clamped to be non-negative and in id order, as the migration leaves and selects them.
- DnsRewrite.RewriteKeepsAnswers: how the core reads rules is taken from the comments of the rewrite, since the core is another repository.
