# OpenCCU Loom client: a verified model

The client mirrors the state of a daemon: it reads a snapshot over REST, keeps it current from a
WebSocket stream, and lets consumers hold on to the live objects. This project models the parts of it
that carry state, and proves what they keep.

| file | what it models |
|---|---|
| `common.dfy` | optional values, and dict assignments applied in order |
| `ws_transport.dfy` | the envelope queue bounded by count and by bytes, its size deque, the overflow latch and the resume cursor, as interleaved steps of reader, getter and consumer |
| `reconnect.dfy` | the reconnect loop: ladder, jitter, reset rule |
| `event_bus.dfy` | the registry of subscriptions, and a fan-out whose handlers change it |
| `store_graph.dfy` | the device graph as a value, every mutator, and when each keeps it sound |
| `index_table.dfy` | a dict with a secondary index, and when a lookup still answers what a scan would |
| `store.dfy` | the store as live objects in dicts, each method tied to the two files above |
| `store_run.dfy` | any sequence of calls on the store: what it shows, which objects show it, and when its lookups stay exact |
| `snapshot_walk.dfy`, `client.dfy` | the bootstrap walk: what it leaves in the store as a value, and which objects hold it |
| `refresh.dfy` | REST re-reads that race with pushes |
| `rebootstrap.dfy` | the single-flight re-bootstrap with its cooldown |
| `end_to_end.dfy` | transport, dispatch, bus and store put together |
| `held_devices.dfy` | the announcer of held devices as a protocol of interleaved steps |
| `http_request.dfy` | the retry loop under one deadline |
| `tolerant_enums.dfy` | the source-to-source rewrite of the generated enum classes |

## How the model is built

A component that works by changing fields is a class with those fields, and its methods have the
source's branches and loops. Each method's postcondition equates the new state with a pure function of
the old one. The theorems are about those functions: what every step keeps, and what holds after every
sequence of steps. `RunAll` says the same of the live store, over runs of its methods. Concurrency is a
sequence of steps in any order, one step for each stretch of code between two awaits. `Run`, `After`, `ApplyAll` and `Walk` are the states such sequences lead to.

A live object is a heap object. `View()` is what the dicts of the store hold as a value; the methods
also say which object stands under a key afterwards.

What an operation writes is stated twice: as the pure function the theorems are about, and spelt out in
fields, numbers and strings, so that neither rests on the other: the `...Land` and `...Hold...` lemmas, the
clauses marked "spelt out", and their like in each file.

Where a property the code comments promise does not hold for every input, the lemma is an equivalence
that says exactly when it does, or a run that shows how it fails:

* Declining an address that the running sync has computed but not yet published leaves it announced
  and declined with no re-sync ahead (`DeclineIsSafeExactlyWhenNotPending`, `CarelessDeclineIsStranded`),
  and it is not announced again until it is declined once more, forgotten, or gone from the inbox
  (`StrandedStaysSilent`). A handler that declines only what was announced to it is safe in every
  interleaving (`DecliningWhatOneWasToldIsSafe`). A declined address waits for the re-sync if and only if
  it was not about to be published (`DeclinedWaitsForTheResync`, `PendingIsPublishedAnyway`).
* Attaching below something the store does not hold unsounds the graph (`SoundExactlyWhenAnchored`). A
  device that the cap refuses gets its catalogues attached all the same
  (`RefusedDeviceIsSoundExactlyWhenItsCataloguesAreEmpty`).
* An index entry stays behind when an object's secondary key moves, and is lost when two objects claim
  one key (`ReconcileAgreesExactlyWhenSettled`, `RegisterAgreesExactlyWhenUnclaimed`,
  `StubAgreesExactlyWhenZoneIsFree`, `MovedKeyLeavesAStaleEntry`). Catalogues that pair names with keys
  and move none keep the lookups exact over every run of the store (`RunAll`).
* `stop()` while the getter holds an envelope leaves one size too many
  (`StopKeepsAlignmentExactlyWhenNothingIsHeld`).
* The apply generation of a custom data point starts at zero again when the object is built anew
  (`RebuiltObjectTakesAnOldAnswer`); an answer to a refresh passes the guard exactly when the writes since
  then are as many as the generation it captured (`WrittenBackExactlyWhenGenerationsMeet`).
* The enum rewrite is not idempotent on every text. A second run changes nothing if and only if one run
  of stripping was enough for the text, and, where there is an enum, no begin marker was left above the
  first class (`IdempotentExactlyWhenNothingIsLeft`, `StrayMarkerIsNotStable`).

Where code and comments disagree the model follows the code. The comment of `_event_key_of`
(openccu_loom_client/events/bus.py:61-65) says that an event without a key reaches every subscriber of
its type; line 140 and the comment of `subscribe` (lines 94-97) say that a keyed subscriber does not get it.

## Model

| member | source | states |
|---|---|---|
| WsTransportModel.WsTransport.constructor | openccu_loom_client/transport/ws.py:181-259 | a new transport has an empty queue, no latch and no cursor, and the subscribe options it was given |
| WsTransportModel.WsTransport.HandleEnvelope | openccu_loom_client/transport/ws.py:599-617 | a valid envelope moves the cursor up; it is queued last with its size when queued bytes and its own make at most 64 MiB and fewer than 4096 envelopes are queued, else counted as dropped, with one resync at the start of an episode |
| WsTransportModel.WsTransport.RegisterOverflow | openccu_loom_client/transport/ws.py:631-641 | every drop is counted; only the first of an episode latches it and fires the resync |
| WsTransportModel.WsTransport.HandleReplayLost | openccu_loom_client/transport/ws.py:663-699 | the cursor becomes the anchor or is dropped, queue and tallies stay, the resync always fires |
| WsTransportModel.WsTransport.GetNowait | openccu_loom_client/transport/ws.py:376-379 | the oldest envelope leaves the queue, its size does not |
| WsTransportModel.WsTransport.ConsumerResumed | openccu_loom_client/transport/ws.py:387-399 | the oldest size leaves, and an open episode ends, with its tally, exactly when at most 2048 envelopes are left |
| WsTransportModel.WsTransport.InitialSubscribe | openccu_loom_client/transport/ws.py:543-556 | a (re)connect subscribes to the whole topic set with both options, from the cursor when there is one, and sends nothing without topics |
| WsTransportModel.QueueRefinesReceive | openccu_loom_client/transport/ws.py:603-617 | a received frame keeps the queue a FIFO of the accepted envelopes with aligned sizes within both bounds |
| WsTransportModel.QueueRefinesResume | openccu_loom_client/transport/ws.py:387-404 | so does a delivery |
| WsTransportModel.QueueRefinesStep | openccu_loom_client/transport/ws.py:374-399 | and every other step: delivered, in flight and queued are the accepted envelopes in order, sizes aligned, bytes their sum and within the cap, accepted plus dropped are the received ones |
| WsTransportModel.EpisodesStep | openccu_loom_client/transport/ws.py:389-398 | every step keeps resyncs equal to latch rises, each reported tally equal to its episode's drops, and the tallies summing to the drop count |
| WsTransportModel.AlternatingStep | openccu_loom_client/transport/ws.py:619-641 | every step keeps resyncs and drains alternating, each taken at a full or a low queue |
| WsTransportModel.CursorStep | openccu_loom_client/transport/ws.py:602-604 | every step keeps the cursor the greatest of the last anchor and the seqs received since, and absent exactly when there is none |
| WsTransportModel.CursorFallsOnlyOnReplayLost | openccu_loom_client/transport/ws.py:684-692 | the cursor falls or is lost only on a replay_lost frame, so the overflow sentinel never reaches it |
| WsTransportModel.EveryRun | openccu_loom_client/transport/ws.py:374-641 | all four invariants hold after every interleaving of reader, getter and consumer |
| WsTransportModel.CountOverflowsAreSeparated | openccu_loom_client/transport/ws.py:389-398 | between two consecutive count overflows that fire a resync lie at least MAXSIZE minus LOW_WATER dequeues and as many enqueues |
| WsTransportModel.AcceptedExactlyWhenThereIsRoom | openccu_loom_client/transport/ws.py:607-641 | after every run, a frame is accepted if and only if the sizes accepted and not yet delivered and its own make at most 64 MiB and fewer than 4096 envelopes are queued; otherwise it is counted, and fires a resync exactly when no episode is open |
| WsTransportModel.EpisodeEndsExactlyWhenLow | openccu_loom_client/transport/ws.py:389-398 | after every run, an episode ends exactly when the consumer resumes with at most 2048 envelopes left, and reports its drops |
| WsTransportModel.NoSilentGap | openccu_loom_client/transport/ws.py:602-617 | every envelope received since the anchor is covered by the cursor and was enqueued, or dropped in an episode that fired a resync |
| WsTransportModel.StopKeepsAlignmentExactlyWhenNothingIsHeld | openccu_loom_client/transport/ws.py:382-386 | after stop() the size deque matches the queue if and only if the getter held nothing |
| Reconnect.DelayIsWithinShare | openccu_loom_client/transport/ws.py:480-491 | whatever the draw, a delay lies within 20% of its ladder step |
| Reconnect.EveryWaitFollowsTheLadder | openccu_loom_client/transport/ws.py:407-477 | every wait of every run lies within 20% of 0.5, 2, 5, 15 and from then on 30 seconds, at the number of turns since the last healthy clean connection |
| Reconnect.RungsRestartExactlyWhenHealthy | openccu_loom_client/transport/ws.py:430-472 | the rungs start again after a clean connection of at least 10 s and after nothing else; only a refused credential or a closing transport ends the loop |
| Reconnect.LadderNeverFalls | openccu_loom_client/transport/ws.py:59-59 | the ladder is non-decreasing and clamps |
| Reconnect.NoWaitAfterTheEnd | openccu_loom_client/transport/ws.py:430-472 | a refused credential or a closing transport ends the loop, and nothing is waited for afterwards |
| Reconnect.WaitsWithoutReset | openccu_loom_client/transport/ws.py:59-73 | anywhere in any run, n >= 4 waits with no reset between them take at least 0.8 * (22.5 + 30 * (n - 4)) seconds |
| Reconnect.AmortisedPacing | openccu_loom_client/transport/ws.py:407-477 | with resets at will, n waits in any window take at least 16/3 * n - 10 seconds |
| Reconnect.AmortisedRateIsReached | openccu_loom_client/transport/ws.py:464-477 | and that rate is exact: three waits every 16 seconds are possible for ever |
| Reconnect.RunForever | openccu_loom_client/transport/ws.py:407-477 | the loop waits exactly what the turn-by-turn description says |
| EventBusModel.SubscribeKeepsExact | openccu_loom_client/events/bus.py:102-107 | subscribing keeps every bucket exactly the live subscriptions of its type in registration order |
| EventBusModel.RemovalHitsItsOwnEntry | openccu_loom_client/events/bus.py:116-117 | removal by equality removes the freshly cancelled entry itself, however many are identical to it |
| EventBusModel.UnsubscribeKeepsExact | openccu_loom_client/events/bus.py:109-121 | unsubscribing cancels its own entry only, and leaves no cancelled entry and no empty bucket |
| EventBusModel.ActionsKeepExact | openccu_loom_client/events/bus.py:102-121 | so does whatever a handler does to the registry while it runs |
| EventBusModel.ActionLands | openccu_loom_client/events/bus.py:102-121 | a handler that subscribes adds that subscription, one that unsubscribes cancels the one it names and no other |
| EventBusModel.PublishCallsExactlyTheLiveMatches | openccu_loom_client/events/bus.py:123-149 | one publish calls exactly the matching subscriptions that were live at its start and not cancelled before their turn, once each, in registration order |
| EventBusModel.PublishHonoursTheKeys | openccu_loom_client/events/bus.py:131-149 | a called subscription asked for no key or for the key of the event, and every live subscription of the type that did is called unless a handler of the publish cancels it |
| EventBusModel.KeyedSubscriberHearsOnlyItsKey | openccu_loom_client/events/bus.py:140-141 | a subscription with a key is called by events with that key only, and by none without a key |
| EventBusModel.CancelCancelsItsMembers | openccu_loom_client/events/bus.py:199-210 | cancelling a group cancels its members and nothing else |
| EventBusModel.BindAppends | openccu_loom_client/bridge.py:112-120 | binding adds the given subscriptions after all others |
| EventBusModel.RebindingKeepsHandlersBoundOnce | openccu_loom_client/client.py:655-669 | starting the events again leaves each store handler bound exactly once and every other subscription as it was |
| EventBusModel.BoundHandlerIsCalledOnce | openccu_loom_client/events/bus.py:131-149 | a handler bound once without a key is called exactly once by a publish of its type |
| EventBusModel.EventBus.constructor | openccu_loom_client/events/bus.py:76-83 | a new bus has no subscription |
| EventBusModel.EventBus.SubscribeTo | openccu_loom_client/events/bus.py:102-107 | appends to the bucket of the type |
| EventBusModel.EventBus.RemoveEqual | openccu_loom_client/events/bus.py:116-117 | removes the first field-wise equal entry, or nothing |
| EventBusModel.EventBus.RemoveFromBucket | openccu_loom_client/events/bus.py:113-119 | the bucket loses the entry, and goes when it was the last |
| EventBusModel.EventBus.Cancel | openccu_loom_client/events/bus.py:109-119 | the unsubscribe callback is idempotent and touches one entry |
| EventBusModel.EventBus.TakeTurn | openccu_loom_client/events/bus.py:135-149 | one entry is called if and only if it is not cancelled and asked for no key or for the key of the event; what its handler does to the registry takes effect before the next |
| EventBusModel.EventBus.PublishEvent | openccu_loom_client/events/bus.py:131-149 | the loop over the copied bucket is the fan-out; every called subscription is of the type, and asked for no key or for the key of the event |
| EventBusModel.SubscriptionGroup.SubscribeTo | openccu_loom_client/events/bus.py:178-197 | the group remembers what it subscribes |
| EventBusModel.SubscriptionGroup.Cancel | openccu_loom_client/events/bus.py:199-210 | the group cancels all of it and is empty |
| StoreGraph.AttachDetailChannels | openccu_loom_client/store.py:1024-1051 | a detail makes the device's channels exactly the listed ones with the last listed summary, and touches no other device's |
| StoreGraph.AttachDetailDataPoints | openccu_loom_client/store.py:1046-1051 | and keeps exactly the data points, generic and calculated, of the channels that stay |
| StoreGraph.AttachDataPointsAt | openccu_loom_client/store.py:1053-1098 | a catalogue gives each listed parameter its last listed summary, keeps unlisted calculated data points, drops unlisted generic ones, and leaves every other channel alone |
| StoreGraph.LoadDevicesAt | openccu_loom_client/store.py:1434-1443 | loading gives a known device its last listed summary and leaves its detail, cap or not; a new one was listed and has no detail |
| StoreGraph.LoadLands | openccu_loom_client/store.py:1434-1464 | field by field: a listed device has its last listed summary, the detail it had or none when new, and is missing only when the store is full |
| StoreGraph.DetailLands | openccu_loom_client/store.py:1024-1051 | entry by entry: the device with firmware and availability of the detail, each listed channel with its last entry, no other channel of it, every other channel as it was |
| StoreGraph.DevicePrecedesTheColon | openccu_loom_client/store.py:1639-1648 | the device of a channel address is what stands before its first colon |
| StoreGraph.DataPointsLand | openccu_loom_client/store.py:1053-1098 | entry by entry: each listed parameter with its last entry, of the rest of the channel only what is calculated, everything else as it was |
| StoreGraph.PushesLand | openccu_loom_client/store.py:1102-1201 | field by field: a value push writes value, display value, observed and all three timestamps; a state push the state and one generation; an availability push the flag; a new device is a stub; what is unknown stays unknown |
| StoreGraph.RefreshesEndOnTheLatest | openccu_loom_client/store.py:1203-1234 | whatever the order of its pushes, the refresh time of a device with an availability record ends on the latest of them and of the one it had, if it had one |
| StoreGraph.RefreshLands | openccu_loom_client/store.py:1203-1234 | one refresh push writes its time to the record and to the summary, only forwards and only where a record exists, and nothing else |
| StoreGraph.AttachCalculatedAt | openccu_loom_client/store.py:1466-1490 | a calculated catalogue replaces or adds what it names, marks exactly that in addition, and leaves the rest |
| StoreGraph.AttachCdpsAt | openccu_loom_client/store.py:917-958 | listed custom data points end on their last listed summary and state, keep their state when none is listed, unlisted ones of the device go, other devices keep theirs |
| StoreGraph.CalculatedLand | openccu_loom_client/store.py:1466-1490 | entry by entry: each named parameter with its last entry and marked, everything else as it was |
| StoreGraph.CdpsLand | openccu_loom_client/store.py:917-958 | entry by entry: each listed name with its last summary, the last state listed for it, else the one it had or none; unlisted ones of the device go; other devices keep theirs |
| StoreGraph.SoundExactlyWhenAnchored | openccu_loom_client/store.py:1024-1250 | from a sound graph a mutator leaves a sound graph if and only if what it attaches hangs off something the store holds |
| StoreGraph.DetailSoundExactlyWhenAnchored | openccu_loom_client/store.py:1024-1051 | for a detail: if and only if its channels are addressed to it or to a known device |
| StoreGraph.DataPointsSoundExactlyWhenAnchored | openccu_loom_client/store.py:1053-1098 | for a catalogue: if and only if it is empty or its channel is registered |
| StoreGraph.CalculatedSoundExactlyWhenAnchored | openccu_loom_client/store.py:1466-1490 | for a calculated catalogue likewise |
| StoreGraph.EveryAnchoredRunIsSound | openccu_loom_client/store.py:1434-1464 | over every sequence of anchored calls: calculated keys are data points, data points hang off channels, channels off devices, devices stay under the cap |
| StoreGraph.RemovalIsCompleteAndLocal | openccu_loom_client/store.py:1236-1250 | removing a device leaves no device, channel, data point, calculated key, custom data point or week profile of its address, and the same of every other |
| IndexTable.DropAllIsWithout | openccu_loom_client/store.py:605-609 | dropping keys one by one drops exactly their entries and the index entries of the keys they carry |
| IndexTable.LookupIsScan | openccu_loom_client/store.py:596-598 | while index and map agree, a lookup is a scan: nothing, or the one object that carries the key |
| IndexTable.DropKeepsAgreement | openccu_loom_client/store.py:605-609 | drops keep the agreement |
| IndexTable.RegisterAgreesExactlyWhenUnclaimed | openccu_loom_client/store.py:600-603 | registering keeps it if and only if no object carried the key |
| IndexTable.ReconcileAgreesExactlyWhenSettled | openccu_loom_client/store.py:930-958 | a catalogue read keeps it if and only if each key ends on its last claimant, each name claims the key it ends on last, and the old keys of the survivors are claimed again |
| IndexTable.StableCatalogueSettles | openccu_loom_client/store.py:936-946 | which holds whenever names and keys are unique and survivors keep their key |
| IndexTable.FittingStepAgrees | openccu_loom_client/store.py:930-958 | so an attach, a drop or a registration with such keys keeps a lookup a scan |
| IndexTable.EveryFittingRunAgrees | openccu_loom_client/store.py:930-958 | and so does any sequence of them |
| IndexTable.MovedKeyLeavesAStaleEntry | openccu_loom_client/store.py:943-945 | an object whose key moved is still found under the old one |
| Store.Device.constructor | openccu_loom_client/model/device.py:107-114 | a device starts without the two detail records |
| Store.Device.ReplaceAvailability | openccu_loom_client/model/device.py:632-635 | the record lands on the detail slot and on the summary |
| Store.Device.AttachDetail | openccu_loom_client/model/device.py:637-645 | both detail records are replaced, the summary stays |
| Store.CustomDataPoint.constructor | openccu_loom_client/model/custom_data_point.py:49-66 | the state is the initial one or empty, the generation zero |
| Store.CustomDataPoint.ReplaceState | openccu_loom_client/model/custom_data_point.py:148-151 | the state is replaced and the generation counts it |
| Store.CustomDataPoint.Reseed | openccu_loom_client/store.py:940-942 | a catalogue entry replaces the summary, and the state when it carries one |
| Store.LoomStore.constructor | openccu_loom_client/store.py:166-209 | a new store is empty and its indexes agree |
| Store.LoomStore.CanAdmitDevice | openccu_loom_client/store.py:1445-1464 | a known address or room under the cap; the first refusal is remembered |
| Store.LoomStore.UpsertDeviceSummary | openccu_loom_client/store.py:1434-1443 | a known device keeps its object and takes the summary, a new one is built under the cap, else none is returned |
| Store.LoomStore.LoadSnapshot | openccu_loom_client/store.py:981-982 | loading the device summaries is the fold of that; no device is dropped and no object replaced |
| Store.LoomStore.ApplyDeviceCreated | openccu_loom_client/store.py:1142-1179 | a stub, available and named by its address, for an unknown address with room, else nothing |
| Store.LoomStore.ApplyDeviceAvailabilityChanged | openccu_loom_client/store.py:1181-1201 | the flag of a known device takes the pushed value; every other field of every device stays |
| Store.LoomStore.ApplyDeviceRefreshed | openccu_loom_client/store.py:1203-1234 | the refresh time of record and summary only moves forward, and only where a record exists; every other field stays |
| Store.LoomStore.UpsertChannel | openccu_loom_client/store.py:1639-1648 | a known channel keeps its object, a new one is built |
| Store.LoomStore.DropChannel | openccu_loom_client/store.py:1650-1656 | the channel goes with its data points and calculated marks, and nothing else |
| Store.LoomStore.AttachDeviceDetail | openccu_loom_client/store.py:1024-1051 | an admitted device has summary, firmware and availability of the detail; the graph is that of the detail; every device and channel key that stays keeps its object, new keys get new ones |
| Store.LoomStore.UpsertChannels | openccu_loom_client/store.py:1041-1046 | the loop over the channels, with the set of their numbers |
| Store.LoomStore.DropVanished | openccu_loom_client/store.py:1048-1051 | exactly the device's unlisted channels are dropped |
| Store.LoomStore.AttachChannelDataPoints | openccu_loom_client/store.py:1053-1098 | the graph is that of the catalogue; surviving data points keep their objects |
| Store.LoomStore.SweepStale | openccu_loom_client/store.py:1076-1086 | exactly the unlisted generic data points of the channel are deleted |
| Store.LoomStore.UpsertDataPoint | openccu_loom_client/store.py:1088-1098 | a surviving data point takes the summary under its object, a new one is built |
| Store.LoomStore.ApplyValueChanged | openccu_loom_client/store.py:1102-1140 | a push writes value, display value, observed and all three timestamps of a known data point in place, leaves its parameter and every other data point, and is ignored for an unknown one |
| Store.LoomStore.AttachChannelCalculatedDataPoints | openccu_loom_client/store.py:1466-1490 | calculated data points are built anew and marked, all others keep their objects; nothing happens without a factory |
| Store.LoomStore.RegisterCdp | openccu_loom_client/store.py:600-603 | map and channel index take the object together |
| Store.LoomStore.DropCdp | openccu_loom_client/store.py:605-609 | and lose it together |
| Store.SteadyCdpsAgree | openccu_loom_client/store.py:930-958 | a catalogue that pairs names with channels and moves no known custom data point keeps the channel index exact |
| Store.LoomStore.AttachCustomDataPoints | openccu_loom_client/store.py:917-958 | states and summaries are those of the catalogue, surviving objects stay, the index is reconciled, and stays exact for such a catalogue |
| Store.LoomStore.UpdateCdp | openccu_loom_client/store.py:937-946 | a known custom data point takes summary, state and index entry under its object |
| Store.LoomStore.ApplyCustomDataPointStateChanged | openccu_loom_client/store.py:1337-1355 | a state push replaces the state of a known custom data point and counts one generation; summary and every other one stay; an unknown one is ignored |
| Store.LoomStore.ApplyDeviceRemoved | openccu_loom_client/store.py:1236-1250 | the cascade: nothing of the device is left, all else keeps its objects and index entries, and an exact index stays exact |
| Store.LoomStore.SetWeekProfileDataPoint | openccu_loom_client/store.py:613-615 | keeps one object per device and kind; registering again replaces that one only |
| Store.LoomStore.GetWeekProfileDataPoints | openccu_loom_client/store.py:621-624 | gives those objects, the default schedule ahead of the climate one |
| Store.LoomStore.GetCustomDataPointByChannel | openccu_loom_client/store.py:596-598 | while index and map agree, the lookup finds the one custom data point of the channel, or none when there is none |
| Store.LoomStore.RegisterAlarmPanel | openccu_loom_client/store.py:684-686 | panel map and zone index take the panel together |
| Store.LoomStore.DropAlarmPanel | openccu_loom_client/store.py:688-691 | and lose it together |
| Store.PanelsLand | openccu_loom_client/store.py:693-714 | entry by entry: a catalogue leaves exactly the panels it lists, each with its last entry |
| Store.SteadyPanelsAgree | openccu_loom_client/store.py:693-714 | a catalogue that pairs panels with zones and moves no known panel keeps the zone index exact |
| Store.LoomStore.AttachAlarmPanels | openccu_loom_client/store.py:693-714 | exactly the listed panels stay, each with its last entry, in the object it had or a new one; the zone index is reconciled, and stays exact for a steady catalogue |
| Store.StubAgreesExactlyWhenZoneIsFree | openccu_loom_client/store.py:764-780 | a push for an unknown panel keeps the zone index exact if and only if its zone is free |
| Store.LoomStore.ApplyAlarmPanelChanged | openccu_loom_client/store.py:748-790 | a removed panel goes; a known one takes name, state and availability and keeps zone and modes; an unknown one is a stub of the push with no modes; the index stays exact unless a stub enters a taken zone |
| Store.LoomStore.GetAlarmPanelByZone | openccu_loom_client/store.py:664-666 | while index and map agree, the lookup finds the one panel of the zone |
| Store.LoomStore.UpsertProgram | openccu_loom_client/store.py:1607-1626 | a program and both its twins read one record after every update, and keep their objects |
| Store.LoomStore.AddProgram | openccu_loom_client/store.py:1609-1619 | a new program gets its object, and new twins exactly when a factory is installed; all others keep theirs |
| Store.LoomStore.ApplyProgramChanged | openccu_loom_client/store.py:1306-1335 | both flags land on the record of a known program, and a link the push carries; an absent one never clears it; every other program stays; program and twins keep their objects |
| Store.LoomStore.ApplyProgramExecuted | openccu_loom_client/store.py:1277-1304 | only a carried link lands on the record; everything else stays; program and twins keep their objects |
| Store.LoomStore.SetProgramFactory | openccu_loom_client/store.py:1511-1521 | a late install builds exactly the missing twins, two a program |
| StoreRuns.Perform | openccu_loom_client/store.py:917-1250 | any one call: what the store shows is what the call makes of what it showed, every handle that stays leads to the same objects unless the call builds them anew, and a steady call keeps both indexes exact |
| StoreRuns.RunAll | openccu_loom_client/store.py:917-1250 | over any sequence of calls the store shows the fold of the pure calls; the object under a device, channel, data point, custom data point, panel, program or twin key that stands throughout is the object it was; with steady calls every lookup is still a scan |
| SnapshotWalk.AttachSyncs | openccu_loom_client/client.py:716-741 | attaching one nested device makes its record, channels and data points those of the snapshot, keeps calculated ones of listed channels, and touches no other device |
| SnapshotWalk.AttachHoldsTheListing | openccu_loom_client/client.py:716-741 | entry by entry: each listed channel and data point of the device with its last entry, no other channel, and no other data point but calculated ones |
| SnapshotWalk.CataloguesHoldTheListing | openccu_loom_client/client.py:160-188 | every data point of the last list of a channel is attached, with the last entry of its parameter |
| SnapshotWalk.WalkKeepsSound | openccu_loom_client/client.py:535-542 | the walk keeps the graph sound and the set of devices |
| SnapshotWalk.BootstrapTouchesNoCdps | openccu_loom_client/client.py:529-542 | a bootstrap touches no custom data point and no week profile |
| SnapshotWalk.BootstrapSyncsEveryDevice | openccu_loom_client/client.py:529-542 | from any sound store with room, a bootstrap leaves for every nested device exactly what the snapshot lists plus the calculated data points of its surviving channels, takes the summary only of a device without nested channels, and changes nothing else |
| SnapshotWalk.BootstrapHoldsTheSnapshot | openccu_loom_client/client.py:529-542 | entry by entry: for the last nested entry of a listed device, its last summary with both detail records, each channel and each data point the entry lists, and nothing else of the device but calculated data points |
| SnapshotWalk.BootstrapWithoutFetch | openccu_loom_client/client.py:518-547 | without data points, a bootstrap leaves the same devices and channels, reads no data point, and takes one away only with a channel that its device no longer lists |
| SnapshotWalk.RebootstrapConverges | openccu_loom_client/client.py:529-542 | a re-bootstrap gives every nested device the same record, channels and listed data points as bootstrapping an empty store |
| SnapshotWalk.WalkNeverReadds | openccu_loom_client/client.py:535-542 | what the walk drops does not come back in it |
| SnapshotWalk.RefusedDeviceIsSoundExactlyWhenItsCataloguesAreEmpty | openccu_loom_client/client.py:732-741 | for a device the cap refuses, the graph stays sound if and only if its catalogues are empty |
| Client.LoomClient.AttachDeviceFromSnapshot | openccu_loom_client/client.py:716-741 | the live store holds what the pure attach says, in the objects it held before: each listed channel and data point, and no other but calculated data points |
| Client.LoomClient.AttachEachCatalogue | openccu_loom_client/client.py:736-741 | one catalogue per channel, and every data point of it; surviving data points keep their objects |
| Client.LoomClient.WalkDevices | openccu_loom_client/client.py:535-542 | the live walk is the pure walk, and orphans no device, channel or data point |
| Client.LoomClient.BootstrapFrom | openccu_loom_client/client.py:529-542 | a re-bootstrap of a sound store with room leaves every device, channel and data point of the snapshot, and replaces no object that a consumer holds and that is still listed |
| Client.LoomClient.Apply | openccu_loom_client/bridge.py:85-101 | the handler bound for an event applies it to the live store; every key that stays keeps its object, and an exact index stays exact |
| Client.LoomClient.HandleCalls | openccu_loom_client/bridge.py:112-117 | of the handlers called for an event, only those bound for it touch the store, once per call, and every key that stays keeps its object |
| Client.LoomClient.Dispatch | openccu_loom_client/client.py:777-783 | one turn of the dispatch loop over the live bus and the live store is one delivery of the end-to-end model, and every key that stays keeps its object |
| Refresh.GenerationCountsWrites | openccu_loom_client/model/custom_data_point.py:148-151 | while a custom data point stays registered, its generation rises exactly at the steps that write its state |
| Refresh.WrittenBackExactlyWhenNothingIntervened | openccu_loom_client/store.py:486-497 | with any number of refreshes in flight, an answer is written back if and only if it carries a state and nothing wrote the state since the request |
| Refresh.GenerationIsWritesSinceBuilt | openccu_loom_client/store.py:486-497 | over every run, drops and rebuilds included, the generation is the number of writes since the object was built, plus the one it started with when it was not rebuilt |
| Refresh.WrittenBackExactlyWhenGenerationsMeet | openccu_loom_client/store.py:486-497 | so an answer with a state is written back if and only if the object is there and, if it is the old one, nothing wrote it since the request, or, if it was built since, it was written as often as the captured generation says |
| Refresh.RebuiltObjectTakesAnOldAnswer | openccu_loom_client/store.py:493-497 | a run in which an object dropped and built anew meanwhile takes an answer older than its seed |
| Refresh.RereadsSettleOnTheNewest | openccu_loom_client/store.py:459-521 | answers in any order, with or without timestamps, leave a data point on what the deciding one carried: nothing timestamped before it is newer and everything after it is older, unless something without a timestamp came between; no other data point is touched |
| Refresh.OnlyOneDecides | openccu_loom_client/store.py:514-521 | there is only one such answer |
| Refresh.NewestRereadDecides | openccu_loom_client/store.py:514-521 | the data point shows that one and no other; with a timestamp on everything it ends on the greatest of all |
| Refresh.RefusedExactlyWhenItWouldLower | openccu_loom_client/store.py:469-473 | with both timestamps there, modified_at never falls; a refused answer changes nothing |
| Store.LoomStore.BeginCdpRefresh | openccu_loom_client/store.py:484-491 | a refresh remembers the generation of a known custom data point and ends for an unknown one |
| Store.LoomStore.FinishCdpRefresh | openccu_loom_client/store.py:493-497 | the state of the answer lands if and only if the object is there, its generation is the captured one and the answer has a state; one generation more, nothing else |
| Store.LoomStore.FinishDataPointRefresh | openccu_loom_client/store.py:511-521 | the summary of the answer lands unless both timestamps exist and its own is the older one; every other data point stays |
| Store.LoomStore.FinishCalculatedRefresh | openccu_loom_client/store.py:1543-1564 | unless it is older, the answer writes value, observed and modified_at and nothing else of the summary, and hands its verdict to a data point that takes verdicts |
| Rebootstrap.ThrottledStep | openccu_loom_client/client.py:996-1018 | every trigger, end and close keeps at most one walk open and the cooldown between walks |
| Rebootstrap.EveryRunIsThrottled | openccu_loom_client/client.py:996-1018 | in every run of triggers at most one walk is open and each starts at least 30 s after the one before ended |
| Rebootstrap.WalksSpanTheCooldown | openccu_loom_client/client.py:118-118 | n walks span at least 30 * (n - 1) seconds |
| Rebootstrap.NoWalkStartsOnceClosing | openccu_loom_client/client.py:996-997 | none starts once the client is closing |
| Rebootstrap.TriggerIsDroppedOnlyForAReason | openccu_loom_client/client.py:998-1016 | a trigger is dropped if and only if the client closes, a walk is open, or one ended less than the cooldown ago |
| Rebootstrap.RebootstrapGuard.OnReplayLost | openccu_loom_client/client.py:996-1018 | the funnel of both triggers starts a walk exactly when the guard lets it |
| Rebootstrap.RebootstrapGuard.RebootstrapEnded | openccu_loom_client/client.py:1042-1057 | success, failure and cancellation are stamped alike |
| EndToEnd.DeliveryAppliesOnce | openccu_loom_client/client.py:777-782 | whatever other handlers do to the registry, one dispatched event is applied to the store exactly once |
| EndToEnd.EveryEventIsAppliedOnceInOrder | openccu_loom_client/client.py:655-672 | every dispatched event is applied once and in order, across any number of restarts |
| EndToEnd.EventsLand | openccu_loom_client/bridge.py:85-101 | what applying each kind of event writes, field by field |
| EndToEnd.LastPushStays | openccu_loom_client/store.py:1112-1140 | a data point whose device is not removed ends on value, display value and time of its last push, observed |
| EndToEnd.DrainedQueueLeavesTheLastPush | openccu_loom_client/client.py:777-787 | when the queue has drained, each such data point has value, display value and time of its last accepted push, which without a drop is its last received one |
| HeldDevices.HeldOfIsQualifyingAddresses | openccu_loom_client/compat/aiohomematic/central/held_devices.py:163-172 | the held map has one entry per address, for exactly the addresses with a qualifying entry |
| HeldDevices.HeldAddressesWaitHere | openccu_loom_client/compat/aiohomematic/central/held_devices.py:163-172 | an address is held if and only if an entry of it waits for its creation, has no central or one of ours, and names an interface |
| HeldDevices.HeldUnderItsWireId | openccu_loom_client/compat/aiohomematic/central/held_devices.py:54-73 | under the id joined of central and interface, or the bare interface, of the last such entry |
| HeldDevices.GroupsAreTheNewAddresses | openccu_loom_client/compat/aiohomematic/central/held_devices.py:193-198 | the groups hold exactly the new addresses, once each, one group per interface, each under its own |
| HeldDevices.SyncAnnouncesExactly | openccu_loom_client/compat/aiohomematic/central/held_devices.py:190-198 | one read announces the held addresses that are not announced, and in a plain sync not declined either; a plain sync leaves every declined address that is still held declined |
| HeldDevices.OrderlyStep | openccu_loom_client/compat/aiohomematic/central/held_devices.py:190-217 | every step keeps the addresses still to be published apart from the announced ones and within the inbox read |
| HeldDevices.EveryRunIsOrderly | openccu_loom_client/compat/aiohomematic/central/held_devices.py:174-219 | over every interleaving, whatever is declined |
| HeldDevices.DeclineIsSafeExactlyWhenNotPending | openccu_loom_client/compat/aiohomematic/central/held_devices.py:123-134 | a decline keeps announced and declined apart and a re-sync ahead if and only if the address is not waiting to be published |
| HeldDevices.AnnouncedMayBeDeclined | openccu_loom_client/compat/aiohomematic/central/held_devices.py:123-134 | so an announced address may be declined at any time |
| HeldDevices.SafeStep | openccu_loom_client/compat/aiohomematic/central/held_devices.py:174-219 | every other step keeps that |
| HeldDevices.DeclinedAddressesAreNeverForgotten | openccu_loom_client/compat/aiohomematic/central/held_devices.py:119-219 | over every interleaving with such declines, announced and declined are disjoint, and while anything is declined the timer is armed or a re-sync has not computed yet |
| HeldDevices.DecliningTheAnnouncedIsSafe | openccu_loom_client/compat/aiohomematic/central/held_devices.py:119-219 | which holds over every interleaving in which only announced addresses are declined |
| HeldDevices.DecliningWhatOneWasToldIsSafe | openccu_loom_client/compat/aiohomematic/central/held_devices.py:119-219 | and so whenever a handler declines only addresses whose DELAYED event it has seen and nothing has released since |
| HeldDevices.ResyncAnnouncesEveryDeclinedAddress | openccu_loom_client/compat/aiohomematic/central/held_devices.py:190-198 | a re-sync announces every declined address that is still held, and none stays declined |
| HeldDevices.DeclinedWaitsForTheResync | openccu_loom_client/compat/aiohomematic/central/held_devices.py:123-198 | in every interleaving, an address declined while it does not wait to be published is announced again only after a read by a re-sync or a read in which it was not held |
| HeldDevices.PendingIsPublishedAnyway | openccu_loom_client/compat/aiohomematic/central/held_devices.py:199-217 | and one that does wait is published without any further read, declined or not |
| HeldDevices.CarelessDeclineIsStranded | openccu_loom_client/compat/aiohomematic/central/held_devices.py:199-219 | a run in which a handler declines a device that is not published yet, and which ends with it announced and declined and no re-sync ahead |
| HeldDevices.AnnouncedUntilReleased | openccu_loom_client/compat/aiohomematic/central/held_devices.py:190-217 | whatever follows any run, an announced address is in no further announcement until it is declined, forgotten or read as not held |
| HeldDevices.StrandedStaysSilent | openccu_loom_client/compat/aiohomematic/central/held_devices.py:190-217 | so the stranded device is announced never again until then |
| HeldDevices.AtMostOneAnnouncementPerHold | openccu_loom_client/compat/aiohomematic/central/held_devices.py:182-217 | between two announcements of an address lies a decline, a forget, or a read in which it was not held |
| HeldDevices.FinishedSyncMatchesInbox | openccu_loom_client/compat/aiohomematic/central/held_devices.py:190-219 | after a successful sync announced is within held, and held within announced, declined and what was forgotten meanwhile |
| HeldDevices.HeldDeviceAnnouncer.constructor | openccu_loom_client/compat/aiohomematic/central/held_devices.py:79-102 | nothing is announced, declined or scheduled |
| HeldDevices.HeldDeviceAnnouncer.Forget | openccu_loom_client/compat/aiohomematic/central/held_devices.py:119-121 | the address leaves the announced set |
| HeldDevices.HeldDeviceAnnouncer.Decline | openccu_loom_client/compat/aiohomematic/central/held_devices.py:123-134 | it moves to the declined set and the re-sync is scheduled |
| HeldDevices.HeldDeviceAnnouncer.ScheduleResync | openccu_loom_client/compat/aiohomematic/central/held_devices.py:146-149 | one timer serves all |
| HeldDevices.HeldDeviceAnnouncer.CancelResync | openccu_loom_client/compat/aiohomematic/central/held_devices.py:151-154 | afterwards none is scheduled |
| HeldDevices.HeldDeviceAnnouncer.WakeAfterDelay | openccu_loom_client/compat/aiohomematic/central/held_devices.py:156-161 | the timer is cleared before the sync it starts |
| HeldDevices.HeldDeviceAnnouncer.HeldAddresses | openccu_loom_client/compat/aiohomematic/central/held_devices.py:163-172 | the loop over the inbox entries is the held map |
| HeldDevices.HeldDeviceAnnouncer.SyncReadFailed | openccu_loom_client/compat/aiohomematic/central/held_devices.py:183-189 | a failed read changes no set; a failed re-sync with declined addresses is scheduled again |
| HeldDevices.HeldDeviceAnnouncer.SyncCompute | openccu_loom_client/compat/aiohomematic/central/held_devices.py:190-198 | both sets lose what left the inbox; the groups are the held addresses that are not announced, nor declined in a plain sync, and those leave the declined set |
| HeldDevices.HeldDeviceAnnouncer.MarkAnnounced | openccu_loom_client/compat/aiohomematic/central/held_devices.py:199-207 | a group is announced before its publish |
| HeldDevices.HeldDeviceAnnouncer.FinishSync | openccu_loom_client/compat/aiohomematic/central/held_devices.py:216-219 | the timer is cancelled only when nothing is declined |
| HttpRequest.Request | openccu_loom_client/transport/http.py:433-481 | ends within the budget, makes at most one attempt per backoff and one more (exactly one without retry), returns a decoded answer, raises a refusal as one and any other error as it is, a retryable one only when no backoff is left or the next would reach the deadline, and reports no budget exactly when there is none |
| HttpRequest.RetriedByDefault | openccu_loom_client/transport/http.py:439-439 | unless the caller says, GET, HEAD, PUT and DELETE are retried in any spelling, POST and PATCH are not |
| HttpRequest.RunAttempts | openccu_loom_client/transport/http.py:441-481 | the loop: every attempt has the budget left after its backoff, and ends it with any answer that is not retryable |
| HttpRequest.BudgetCoversEverything | openccu_loom_client/transport/http.py:441-455 | waits and attempts tile the time of a request, within the budget |
| HttpRequest.OnlyRetryableAnswersAreRetried | openccu_loom_client/transport/http.py:465-476 | a gate refusal or a fatal answer can only be the last attempt's |
| TolerantEnums.LexIsLexed | script/gen/tolerant_enums.py:128-128 | cutting a text at its class headers loses nothing and misses no header |
| TolerantEnums.LexIsUnique | script/gen/tolerant_enums.py:128-128 | there is only one way to cut it |
| TolerantEnums.HeadersAreTheClassLines | script/gen/tolerant_enums.py:128-128 | a header is found exactly where "class", a name of word characters, bases without a closing parenthesis, and "):" end a line, and yields that name and those bases |
| TolerantEnums.OccursExactlyWhenHeld | script/gen/tolerant_enums.py:132-132 | the search for Enum or Flag is a search for a substring |
| TolerantEnums.TrimTakesTheBlanks | script/gen/tolerant_enums.py:155-155 | stripping a part takes the blanks at both ends and nothing else |
| TolerantEnums.BasesAreRespaced | script/gen/tolerant_enums.py:155-155 | the bases are compared part by part, each stripped, with a comma and a blank between |
| TolerantEnums.EachSpellingIsRepointed | script/gen/tolerant_enums.py:121-179 | StrEnum, "str, Enum", Enum and IntEnum are re-pointed each at the tolerant base of its own kind; a tolerant base and a class without an enum base stay; any other enum is refused |
| TolerantEnums.TolerantIsKept | script/gen/tolerant_enums.py:158-165 | a tolerant base is recognised as what it is, so it is kept |
| TolerantEnums.RetargetKeepsCuts | script/gen/tolerant_enums.py:153-179 | re-pointing classes neither hides a header nor makes a new one |
| TolerantEnums.StripTakesTheBlock | script/gen/tolerant_enums.py:133-138 | stripping an assembled text takes the whole block and only it |
| TolerantEnums.StripsBlockByBlock | script/gen/tolerant_enums.py:133-138 | from left to right, where a begin marker stands and an end marker follows, everything goes up to the first end marker and the line feeds after it; any other character stays |
| TolerantEnums.BlockIsJoined | script/gen/tolerant_enums.py:187-190 | the block is the begin marker, the requested sources in order and the end marker, joined by three line feeds |
| TolerantEnums.StrippingAroundTheBlock | script/gen/tolerant_enums.py:133-138 | whatever else stripping takes around an injected block, above or below, it takes a `#` that the text had besides it |
| TolerantEnums.RewriteIsIdempotent | script/gen/tolerant_enums.py:136-190 | rewriting what the rewrite wrote changes nothing when nothing is left to strip and, where there is an enum, no begin marker stands above the first class |
| TolerantEnums.AssembledOneWay | script/gen/tolerant_enums.py:133-190 | a text that reads as assembled with its block first and nothing else to strip reads as assembled in no other way |
| TolerantEnums.IdempotentExactlyWhenNothingIsLeft | script/gen/tolerant_enums.py:136-190 | and only then: for every text, rewriting what the rewrite wrote changes nothing if and only if that condition holds |
| TolerantEnums.TheMarkersAreUsable | script/gen/tolerant_enums.py:58-59 | the script's two markers are markers, neither holds the other, and any sources without the end marker will do |
| TolerantEnums.ScriptIsIdempotentExactlyWhenNothingIsLeft | script/gen/tolerant_enums.py:136-190 | so the equivalence holds for the script's own markers |
| TolerantEnums.StrayMarkerIsNotStable | script/gen/tolerant_enums.py:133-138 | a text on which a second run does change something: a begin marker that ends nowhere, and an enum below it |
| TolerantEnums.NeededInOrderOfFirstUse | script/gen/tolerant_enums.py:150-177 | the bases in the block are exactly those in use, once each, in the order of first use |
| TolerantEnums.RewriteRepointsEveryEnum | script/gen/tolerant_enums.py:141-190 | for every text with enums: every enum class ends on the tolerant base of its own spelling, whose source is in the block; names and everything else stay, in order; the block, with the bases in use once each, stands above the first class, three line feeds from either side |
| TolerantEnums.WithoutEnumsOnlyStripped | script/gen/tolerant_enums.py:179-181 | a text is merely stripped, and counts nothing, exactly when no class of it has a known or a foreign enum base |
| TolerantEnums.CountsEachEnum | script/gen/tolerant_enums.py:164-178 | the count is the number of classes on a known base |
| TolerantEnums.RejectedExactlyWhenUnsupported | script/gen/tolerant_enums.py:166-172 | the rewrite is refused exactly when some enum has a base that is neither a known spelling nor tolerant, and names the first such class |
| TolerantEnums.Repl | script/gen/tolerant_enums.py:153-177 | the callback refuses a foreign enum base, keeps or re-points any other header, requests its base once and counts it |
| TolerantEnums.Rewrite | script/gen/tolerant_enums.py:141-190 | the scan with its callback computes the rewrite |

## Left out

- Sockets, TLS, JSON, payload validation and logging: frames, snapshots, answers and clocks are inputs of the model.
- The device read over REST for a snapshot entry without nested channels: the walk leaves such a device as loaded.
- Timestamps are integers, and firmware, availability and channel summaries keep only the fields the mutators read or write.
- The order in which a dict lists its keys: device, channel and data point dicts are maps; orders that are observable (queue, groups, buckets, headers) are sequences.
- System variables, zone details and countdowns of alarm panels, triggered-motion counts: they add members of the shapes proved for programs and panels, and no harder property.
- The central id taken from the snapshot's interface list, and the factories of the compat layer: a factory is only whether it is installed, and returns a new object, which takes verdicts or not as it likes.
- Store.LoomStore.FinishCalculatedRefresh: clearing an optimistic value override, which lives outside the summary.
- Removal by snapshot and convergence after an overflow: the code promises neither. It merges, keeps its backlog on overflow, and a value push carries no order test.
- Byte overflows and hysteresis: the low-water mark counts items only, so `CountOverflowsAreSeparated` speaks of count overflows.
- `aclose` of the announcer, cancellation in the middle of its sync, and handlers that raise there.
- HeldDevices.EveryRunIsOrderly: the lock is taken in any order, not first come first served, which allows more interleavings than there are.
- Handlers that await for long: a handler's changes to the registry are one step of the fan-out, and concurrent publishes do not interleave.
- Client.LoomClient.Dispatch: the store handlers run after the fan-out instead of at their turn in it; they touch the store only, other handlers the registry only.
- EndToEnd.DrainedQueueLeavesTheLastPush: attaches and refreshes in between are not part of the run; the bindings that do not reach the device graph are handlers like any other.
- Concurrent calls of `start_events`.
- HttpRequest.Request: every attempt is assumed to end by its timeout, and sleeps to last exactly as asked.
- Rebootstrap.EveryRunIsThrottled: what a walk reads is not in this model; `snapshot_walk.dfy` has its effect.
- StoreRuns.RunAll: the bootstrap walk and the dispatch loop, which are sequences of these calls, have their own contracts in `client.dfy`; a week profile and a calculated data point are built anew by the call that names them.
- The sources of the four tolerant bases are parameters; the proofs need only that none contains the end marker. Word characters and white space are ASCII.
