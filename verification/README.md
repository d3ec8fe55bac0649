# A verified model of the Amass engine

Amass keeps what it discovers in an asset graph and works through it session by session.
This project models the parts of the engine whose behaviour spans several functions or
goroutines, and proves what they promise for every input, every run and every interleaving.
All statements are about the model; the table below says which source lines each member
stands for.

- **The work protocol** (`Assets`, `Backlog`, `BacklogOrder`, `Dispatcher`, `WorkProtocol`,
  `WorkElements`, `WorkSafety`, `WorkIdle`, `WorkOrder`, `WorkProgress`, `WorkStore`).
  Entities are rows of a backlog; the pump leases them into bounded pipeline queues; stages hand them to a bounded completion channel, or
  acknowledge them directly when it is full. The classes are the store, the session's view
  of it, the pipeline queue and the dispatcher's methods. `WorkProtocol` is the whole as a
  transition system with one action per atomic step of a goroutine, and `WorkStore` ties the
  two together. Leases never expire, so a leased row without a live element would keep its
  session from ever being idle: that is the invariant. `WorkProgress` shows that nothing
  gets stuck, `WorkOrder` and `BacklogOrder` that what comes first goes first.
- **The asset pipeline and its OSINT gate** (`AssetPipeline`, `OsintBypass`). Building the
  stages from the handler table, and what one element meets on its way, with and without
  the gate that leads discovered names around positions 20 to 40.
- **The log fan-out** (`Logger`, `LogFanout`, `LogSafety`, `LogProgress`). The logger's
  methods as a class, and all its goroutines as interleaved steps under one lock.
- **The session semaphore** (`SessionSemaphore`, `SemaphoreRuns`, `SemaphoreWaits`). The
  token channel and its replacement as classes, and calls that hold an old reference while a resize runs.
- **The FQDN filter** (`FqdnNames`, `FqdnTrie`, `FqdnFilter`, `FqdnSlice`). Nested maps
  changed in place, the sets of paths they stand for, and what Slice means for the names
  that went in.
- **Addresses and ranges** (`IpBytes`, `IpNets`, `IpHosts`, `IpWindow`, `IpRanges`). Byte
  arithmetic in place, enumerators, windows and range conversion. CIDR notation is that of
  section 3.1 of RFC 4632, IPv4-mapped addresses those of section 2.5.5.2 of RFC 4291.
- **Graph walks and the range index** (`ResolverWalk`, `VizGraph`, `ScopeSearch`, `D3Graph`,
  `AsnCache`).
- **The end of a session and masks** (`WaitLoop`, `EndWork`, `MaskExpansion`).

## Where the code does less than it says

Each of these is a lemma or a clause of a contract, with the exact condition where there is one.

- An ownerless Ack that arrives after its row was queued again marks the row done, so that
  pass is lost (`WorkIdle.LateAckDropsQueuedRow`, `WorkIdle.ResubmissionLost`). A later Ack is
  a no-op exactly when the row is gone or done (`WorkIdle.LateAckIsNoOpIff`); in a run that
  never re-enqueues a leased row and lets no element out twice, no pass is lost
  (`WorkIdle.DisciplinedKeepsQueuedRows`).
- The store's Enqueue is documented as inserting an item "if it does not already exist";
  it also forces an existing row back to queued. The code is followed.
- A name whose last label is empty comes back from the filter without its dot
  (`FqdnNames.NameRoundTrip`).
- Range2CIDR never tests the whole space, so for ranges that cover an aligned half of it,
  but not all, its block is too large (`IpRanges.LargestIff`), and networks of length one do
  not survive the round trip (`IpRanges.RoundTripIff`).
- RangeHosts over the whole IPv6 space returns nothing, and for a single address it returns
  the caller's own slice (`IpHosts.RangeHosts`).
- FirstLast has no result for an IPv4-mapped IPv6 network below full length, and intToIP none
  for the number of an IPv4 address in 16 bytes (`IpRanges.FirstLast`, `IpRanges.IpIntRoundTrip`).
- AllHosts does not end on 0.0.0.0/0 (`IpHosts.SlashZeroNeverEnds`); on an IPv6 network
  that covers the IPv4-mapped addresses and more it stops in front of them
  (`IpHosts.AllOrGap`).
- CIDRSubset returns less than the window exactly when a walk meets that gap or, in ::/0, an
  end of the address space (`IpWindow.PromisedWindow`); in the latter case it returns nothing
  (`IpWindow.CIDRSubset`, `IpWindow.EmptyWindow`).
- A release that straddles a resize can leave a slot taken without a holder
  (`SemaphoreRuns.StraddledReleaseLeaks`). All slots are free at rest exactly when as many
  tokens were wasted as slots went uncounted (`SemaphoreRuns.AllFreeAtRest`).
- A comment on the semaphore's Acquire says that a call which read the old reference before
  a resize still completes. It does only as long as there are tokens for it: of those who
  wait, all beyond the old semaphore's tokens and the releases on their way to it wait for
  ever (`SemaphoreWaits.AllServedIff`, `SemaphoreWaits.LeftBehind`,
  `SemaphoreWaits.WaiterForgotten`).
- The search back for a name in scope has no memory of where it has been, so the
  visualisation walk does not return when it visits a name from which that search runs into a
  cycle of aliases (`VizGraph.WalkThatHangs`, `VizGraph.VizData`; exactly when, in
  `ScopeSearch.ComesBackIffTrailEnds`).
- The range index answers with any entry that covers the address, and an entry filed for one
  address can hide a longer netblock from another, cached later or long before
  (`AsnCache.EarlierEntryWins`, `AsnCache.FilledCacheHides`). Exactly when it hides none is
  in `AsnCache.ASNCache.LongestIff`; what each call does to that is in the contracts of
  `AsnCache.ASNCache.AddrSearch` and `AsnCache.ASNCache.Update`.

## Model

| member | source | states |
|---|---|---|
| `WorkSafety.EveryRunIsSafe` | engine/dispatcher/dispatcher.go:71-254 | in every reachable state of any interleaving: each leased row of a live session has a live element somewhere between its claim and its Ack (none is stranded), no pipeline queue passes its type's MaxQueued even counting what the pump still holds, and claims never outnumber enqueues plus releases |
| `WorkElements.Conserves` | engine/dispatcher/dispatcher.go:191-254 | every step moves an element to exactly one next place; elements are made only by claims and end only by an Ack, a failed load or a Release |
| `WorkSafety.NoStrandedStep` | engine/dispatcher/dispatcher.go:127-164 | one step of any goroutine keeps a live element for every leased row |
| `WorkSafety.BoundedStep` | engine/dispatcher/dispatcher.go:213-252 | one step keeps every queue, together with what the pump is about to append, within MaxQueued |
| `WorkSafety.PaidStep` | engine/dispatcher/dispatcher.go:105-125 | per row: claims, plus one while it is queued, stay within enqueues plus releases |
| `WorkSafety.OnePerLeaseIffDisciplined` | engine/registry/pipelines.go:123-143 | a run keeps exactly one outstanding element per leased row and none otherwise if and only if each of its steps is disciplined: no leased row is enqueued again and no element leaves a stage and stays in it |
| `WorkSafety.RetiresOwnLease` | engine/dispatcher/dispatcher.go:148-164 | with one element per lease, an element that is acknowledged is the one of the lease its row has now |
| `WorkSafety.OnePerLeaseBroken` | engine/dispatcher/dispatcher.go:105-125 | each undisciplined step really breaks the one-to-one match |
| `WorkIdle.DrainedIsIdle` | engine/sessions/session.go:360-376 | in every run, a live session with nothing queued and nothing outstanding has completed equal to total |
| `WorkIdle.IdleIffDrained` | engine/sessions/session.go:360-376 | in a disciplined run completed equals total exactly when nothing is queued and no element is outstanding |
| `WorkIdle.LateAckDropsQueuedRow` | engine/registry/pipelines.go:136-141 | a step turns a queued row into a done one exactly when it is an ownerless Ack of it, by a stage that found the channel full or by the completion goroutine, and no claim pays for the last enqueue |
| `WorkIdle.LateAckIsNoOpIff` | engine/registry/pipelines.go:136-141 | such an Ack changes nothing exactly when the row is gone or done already |
| `WorkIdle.DisciplinedKeepsQueuedRows` | engine/dispatcher/dispatcher.go:105-164 | no step of a disciplined run turns a queued row of a live session into a done one |
| `WorkIdle.ResubmissionLost` | engine/dispatcher/dispatcher.go:105-125 | a concrete run: an entity resubmitted while its element is in a stage ends done, the session counts as idle, and the second enqueue was never claimed |
| `WorkProgress.CanBecomeIdle` | engine/dispatcher/dispatcher.go:127-254 | from every state any run reaches, the goroutines already at work can bring a live session whose queues are not draining to completed equal to total by themselves, in a bounded number of steps, without losing an entity: no element, lease or channel waits for ever |
| `WorkProgress.SomeStep` | engine/dispatcher/dispatcher.go:127-254 | unless the pump, the stages, both completion queues and all pipeline queues are empty, some goroutine can go on |
| `WorkProgress.LessWork` | engine/dispatcher/dispatcher.go:127-254 | and each such step leaves strictly less work, so no order of steps goes on for ever without a new enqueue or claim |
| `WorkProgress.StagesNeverWait` | engine/registry/pipelines.go:123-143 | a full completion channel blocks no stage: an element can always leave, into the channel or to be acknowledged by the stage |
| `WorkProgress.ClaimOne` | engine/dispatcher/dispatcher.go:213-227 | a pump at rest can claim any queued row |
| `WorkOrder.StagesSeeClaimOrder` | engine/dispatcher/dispatcher.go:226-250 | in every run, what a pipeline has taken from its queue, what is in the queue and what the pump has still to append are, in that order, in the order of their claims, with none doubled |
| `WorkOrder.CompletionsInOrder` | engine/dispatcher/dispatcher.go:127-146 | in every run the elements sent into the completion channel are completed in that order, none lost or doubled: sent equals completed plus what is on the way |
| `WorkProtocol.ExitIs` | engine/registry/pipelines.go:123-143 | an element leaving its stage goes to the end of the completion channel while that holds fewer than a thousand, and is acknowledged by the stage otherwise |
| `WorkStore.ClaimMatches` | engine/sessions/backlogdb/backlog.go:101-220 | the rows the store picks are a claim the protocol allows, and both lease the same rows |
| `WorkStore.EnqueueMatches` | engine/sessions/backlogdb/backlog.go:51-70 | the store and the protocol agree on what an enqueue does to a row |
| `WorkStore.AckMatches` | engine/sessions/backlogdb/backlog.go:223-264 | the store and the protocol agree on an Ack without owner |
| `WorkStore.OwnedAckMatches` | engine/sessions/backlogdb/backlog.go:223-264 | and on an Ack with the lease's owner |
| `WorkStore.ReleaseMatches` | engine/sessions/backlogdb/backlog.go:268-294 | and on a Release |
| `Assets.LimitsOf` | engine/dispatcher/dispatcher.go:312-342 | the exact four numbers of every type, in the order burst, low water, high water, MaxQueued |
| `Assets.VisitSize` | engine/dispatcher/dispatcher.go:213-224 | one visit claims the full burst whenever it fits, otherwise exactly the room left, and nothing exactly when the queue is full |
| `Backlog.BacklogDB.Enqueue` | engine/sessions/backlogdb/backlog.go:51-70 | a new id gets a row of the given type, inserted now, queued and without owner; an existing row, leased or done alike, is queued again with its time and type kept; every other row is as it was; an empty id is refused and changes nothing |
| `Backlog.BacklogDB.EnqueueDone` | engine/sessions/backlogdb/backlog.go:73-92 | the same with the done state |
| `Backlog.BacklogDB.Has` | engine/sessions/backlogdb/backlog.go:27-47 | true exactly for entities with a row |
| `Backlog.BacklogDB.ClaimNext` | engine/sessions/backlogdb/backlog.go:101-220 | leases exactly min(n, queued) oldest queued rows of the type, oldest first, in any order among rows of one second, and leaves every other row alone |
| `Backlog.BacklogDB.Oldest` | engine/sessions/backlogdb/backlog.go:120-150 | no row of the set is older |
| `Backlog.BacklogDB.Ack` | engine/sessions/backlogdb/backlog.go:223-264 | without owner: done whatever the state was; with one: only the row it has leased, otherwise an error and no change |
| `Backlog.BacklogDB.Release` | engine/sessions/backlogdb/backlog.go:268-294 | only a leased row (of the owner, if one is given) goes back to queued |
| `Backlog.BacklogDB.Delete` | engine/sessions/backlogdb/backlog.go:313-322 | takes out that row and no other |
| `Backlog.BacklogDB.Counts` | engine/sessions/backlogdb/backlog.go:326-341 | the sizes of the three sets of rows of the type |
| `BacklogOrder.FirstInFirstOut` | engine/sessions/backlogdb/backlog.go:51-220 | over any sequence of calls on the store with a clock that never goes back: no entity is claimed while another one of its type, inserted in an earlier second and queued, is left behind; insertion is told from the calls alone, not from the rows |
| `BacklogOrder.RowsTell` | engine/sessions/backlogdb/backlog.go:51-322 | a row exists exactly while its entity is inserted and not deleted since, and carries the second and the type of that first insertion through every later call |
| `BacklogOrder.ClaimLeases` | engine/sessions/backlogdb/backlog.go:101-220 | in such a sequence a claimed entity was queued and is leased to the claimer, and no other row changes |
| `BacklogOrder.ClockGoesOn` | engine/sessions/backlogdb/backlog.go:58-66 | what was inserted first has no later second |
| `Backlog.UpsertRow` | engine/sessions/backlogdb/backlog.go:51-92 | row by row what Enqueue and EnqueueDone leave: the new row field by field, or the old one with state changed and owner gone |
| `Backlog.LeasedRow` | engine/sessions/backlogdb/backlog.go:176-207 | row by row what a claim leaves: the claimed rows leased to the owner, time and type kept, the others as they were |
| `Backlog.AckedRow` | engine/sessions/backlogdb/backlog.go:223-264 | row by row what an Ack leaves, with and without owner |
| `Backlog.ReleasedRow` | engine/sessions/backlogdb/backlog.go:268-294 | row by row what a Release leaves, with and without owner |
| `Backlog.PickedOldest` | engine/sessions/backlogdb/backlog.go:101-150 | picking an oldest row again and again yields the oldest rows in order |
| `Backlog.CountOne` | engine/sessions/backlogdb/backlog.go:326-341 | counting a row at a time counts the sets of rows |
| `Backlog.EnqueueError` | engine/sessions/backlog.go:96-119 | no error exactly for an entity with an id and a typed asset, and each of the four errors exactly for its own defect |
| `Backlog.OwnerName` | engine/sessions/backlog.go:153-170 | the owner of a lease is the session's name, a colon and the name of the asset type |
| `Backlog.SessionBacklog.Has` | engine/sessions/backlog.go:82-92 | true exactly for an entity with a row |
| `Backlog.SessionBacklog.Enqueue` | engine/sessions/backlog.go:96-119 | checks the entity, then the row changes as in the store; on an error nothing changes |
| `Backlog.SessionBacklog.ClaimNext` | engine/sessions/backlog.go:153-195 | returns the claimed entities that still exist, in claim order, and acknowledges the missing ones; an error exactly when none is left |
| `Backlog.SessionBacklog.Load` | engine/sessions/backlog.go:170-190 | the loop over the claims: missing entities are done afterwards, the others leased |
| `Backlog.SessionBacklog.Ack` | engine/sessions/backlog.go:199-216 | acknowledges in the store, with the owner name only when asked to and the entity has an asset; an error for no entity, and for an owner that does not hold the lease |
| `Backlog.SessionBacklog.Release` | engine/sessions/backlog.go:223-240 | releases in the store, with the owner name only when asked to |
| `Dispatcher.PipelineQueue.Append` | engine/types/registry.go:62-68 | appends at the end unless draining, when nothing changes |
| `Dispatcher.PipelineQueue.Drain` | engine/types/registry.go:70-76 | draining from then on |
| `Dispatcher.PipelineQueue.Data` | engine/types/registry.go:102-114 | takes elements up to the first one whose session is not finished, and returns that one |
| `Dispatcher.Session.CalculateStats` | engine/sessions/session.go:360-376 | the sums over the types, equal exactly when no listed type has a queued or leased row |
| `Dispatcher.Dispatcher.WakePump` | engine/dispatcher/dispatcher.go:166-171 | a wake-up is kept when one is already pending |
| `Dispatcher.Dispatcher.SignalScheduling` | engine/dispatcher/dispatcher.go:94-103 | wakes the pump exactly when the queue is at or under low water |
| `Dispatcher.Dispatcher.Submit` | engine/dispatcher/dispatcher.go:81-92 | metadata and row are written together; when the store refuses the entity the metadata entry is gone again |
| `Dispatcher.Dispatcher.DispatchEvent` | engine/dispatcher/dispatcher.go:71-92 | an entity with a row changes nothing; a new one gets a queued row of its type inserted now, no other row changes, and its metadata is kept; a refused one leaves no trace in the store, and each refusal has its own error |
| `Dispatcher.Dispatcher.ResubmitEvent` | engine/dispatcher/dispatcher.go:105-125 | an entity without a row is refused; one with a row is queued again whatever its state |
| `Dispatcher.Dispatcher.PumpVisit` | engine/dispatcher/dispatcher.go:213-252 | leases exactly min(burst, room, queued) oldest rows and appends their elements in order with their metadata; when the queue is draining, the loaded ones are queued again, the missing ones done, and no other row changes; the queue stays within MaxQueued |
| `Dispatcher.Dispatcher.ClaimAndAppend` | engine/dispatcher/dispatcher.go:226-250 | the claiming half of a visit: the oldest rows leased, the missing ones acknowledged, the rest appended |
| `Dispatcher.Dispatcher.AppendAll` | engine/dispatcher/dispatcher.go:232-252 | all elements appended in order, or, when draining, all their leased rows queued again and no other row changed |
| `Dispatcher.VisitGivesBack` | engine/dispatcher/dispatcher.go:246-249 | after a visit to a draining queue the claimed entities that were loaded are queued again, the missing ones done, and every other row is as it was |
| `Dispatcher.Dispatcher.CompletedCallback` | engine/dispatcher/dispatcher.go:148-164 | the row is done, its metadata gone, and the pump awake when the queue is low |
| `OsintBypass.BypassChangesNothing` | engine/registry/osint_bypass.go:52-108 | when the handlers in the range do nothing for unflagged names, running any element through the gated pipeline gives the same event, errors and effective callbacks as running it without the gate, wherever the session ends and in whatever order the handlers of a stage run |
| `OsintBypass.PlainPipeline` | engine/registry/pipelines.go:39-110 | with nothing to flag, that reference is the plain pipeline's own run |
| `OsintBypass.RunCalls` | engine/registry/pipelines.go:207-269 | what a run through any pipeline without a gate computes, told from the handlers alone: the callbacks of the handlers the configuration selects, each applied to the event the one before returned; the errors of the failing ones, the names of those with an effect, and after a panic nothing behind its stage |
| `OsintBypass.WithoutGateCalls` | engine/registry/osint_bypass.go:52-108 | the same for the run that the gated one amounts to, with the flag set in between for a configured domain |
| `OsintBypass.ThroughCalls` | engine/registry/pipelines.go:207-269 | the same stage by stage |
| `OsintBypass.RunAtGate` | engine/registry/osint_bypass.go:59-107 | at the gate: an ended session stops the element; a configured domain goes on flagged and a flagged name goes on, both through the whole range; any other name resumes at the resume stage |
| `OsintBypass.GateOnce` | engine/registry/pipelines.go:67-72 | exactly one gate, behind all stages at positions under 20 and in front of all stages at 20 and above; taking it out leaves the plain pipeline |
| `OsintBypass.GateGoesAhead` | engine/registry/pipelines.go:48-56 | the stage the gate names exists and lies behind the gate, so no walk goes back |
| `OsintBypass.IdleRange` | engine/registry/osint_bypass.go:16-27 | an unflagged name comes out of the range unchanged, unless the session ends inside |
| `OsintBypass.EveryElementExits` | engine/registry/pipelines.go:123-143 | whatever stops it, an element is handed to the completion side at least once |
| `AssetPipeline.BuildAssetPipeline` | engine/registry/pipelines.go:39-110 | refuses exactly the tables with an unlisted handler in the range; otherwise one stage per occupied position 1 to 50 in ascending order, the gate in front of the first at or above 20 when a position above 40 is occupied, and a buffer as wide as the widest pool |
| `AssetPipeline.AssertOSINTBypassInvariant` | engine/registry/pipelines.go:187-205 | accepts exactly when every handler at positions 20 to 40 is on the list, and names an offender otherwise |
| `AssetPipeline.FindResume` | engine/registry/pipelines.go:48-56 | the lowest occupied position from 41 to 50, or none |
| `AssetPipeline.NameIsExactScopeDomain` | engine/registry/osint_bypass.go:134-145 | true exactly when the trimmed lower-case name is not empty and equals that of a configured domain |
| `AssetPipeline.NormIs` | engine/registry/osint_bypass.go:134-145 | the compared form is the lower-case form of the name without the white space around it: what is cut off is white space only, what is left does not begin or end with it |
| `AssetPipeline.LowerIs` | engine/registry/osint_bypass.go:134-145 | each upper-case letter becomes its lower-case one, every other character stays |
| `AssetPipeline.ChosenIff` | engine/registry/pipelines.go:236-312 | a handler runs exactly when an entry of the event's type names its plugin or a target of it, or is for all without the first such entry excluding the plugin |
| `AssetPipeline.SelectionFacts` | engine/registry/pipelines.go:236-312 | no entry of the type selects nothing; an excluded plugin is never selected; a named plugin is, unless excluded |
| `AssetPipeline.FlagIsSet` | engine/plugins/support/support.go:303-335 | setting the flag sets it for a name whose metadata is its own or none, keeps records, name and all else, and changes nothing otherwise |
| `AssetPipeline.RangeIs` | engine/registry/pipelines.go:187-205 | the listed handlers are those of positions 20 to 40 and no others |
| `AssetPipeline.ResumeIs` | engine/registry/pipelines.go:48-56 | names resume at the lowest occupied position from 41 to 50 |
| `AssetPipeline.PipelineIs` | engine/registry/pipelines.go:58-96 | one stage for each occupied position from 1 to 50, in ascending order: alone in a first-in-first-out stage, in a pool when it may run more than once, several in one parallel stage |
| `AssetPipeline.StageAt` | engine/registry/pipelines.go:74-96 | the stage of a position carries all its handlers |
| `LogSafety.NoGapNoDuplicate` | engine/pubsub/logger.go:129-186 | for every interleaving: what a subscriber read, its channel, its pump's hand and its queue together are exactly the messages broadcast from its start to its end, in order, none twice, none missing |
| `LogSafety.NothingLostBeforeClose` | engine/pubsub/logger.go:49-53 | until Close begins, the accepted messages are the broadcasts, the one in hand and the queue |
| `LogSafety.AcceptedOnce` | engine/pubsub/logger.go:49-53 | over every run, each call of Publish that meets a subscriber appends its message exactly once, sooner or later, and no other call does |
| `LogSafety.BroadcastsWereAccepted` | engine/pubsub/logger.go:112-127 | at any time what was broadcast or waits is a subsequence of what was accepted |
| `LogSafety.CountIsExact` | engine/pubsub/logger.go:65-104 | with the lock free the counter is the number of subscriptions that have not ended, and the list holds exactly those, once each |
| `LogSafety.ChannelsCloseOnce` | engine/pubsub/logger.go:159-186 | a channel is closed at most once, only after its subscription ended, and never sent on later |
| `LogSafety.UnsubscribeAgain` | engine/pubsub/logger.go:92-104 | ending a subscription again, or after Close, changes nothing |
| `LogSafety.ClosedForGood` | engine/pubsub/logger.go:112-127 | once Close has returned every subscription ever made has ended and the list is empty, in every later state |
| `LogSafety.LateSubscribeIsRefused` | engine/pubsub/logger.go:72-81 | a Subscribe after that hands back a closed channel and adds nothing |
| `LogSafety.EveryRunIsSafe` | engine/pubsub/logger.go:65-187 | all of the above together is kept by every step of every goroutine |
| `LogFanout.LocalKeeps` | engine/pubsub/logger.go:159-186 | a pump or reader step keeps the subscriber's stream of messages as it is |
| `LogProgress.EveryMessageCanBeRead` | engine/pubsub/logger.go:106-186 | from every state a run reaches before Close, the goroutines already at work can bring all accepted messages to the reader of every subscription that nobody is ending, who has then read exactly the accepted messages since it began: no lock, full channel or wait is in the way for ever |
| `LogProgress.SomeStep` | engine/pubsub/logger.go:106-186 | as long as somebody has not got everything, some goroutine can go on |
| `LogProgress.LessWork` | engine/pubsub/logger.go:106-186 | and each such step leaves strictly less work |
| `LogFanout.SendWaits` | engine/pubsub/logger.go:159-186 | a pump with a message waits exactly while its channel holds a hundred, and sends to its end |
| `LogFanout.PublishAsks` | engine/pubsub/logger.go:49-53 | a message is let through exactly when there is a subscriber at that moment |
| `Logger.Logger.Publish` | engine/pubsub/logger.go:49-53 | appends the message exactly when there is a subscriber |
| `Logger.Logger.Subscribe` | engine/pubsub/logger.go:65-87 | a closed logger hands back a closed channel and adds nothing; otherwise a new subscription goes to the end of the list with an open channel and an empty queue |
| `Logger.Logger.Unsubscribe` | engine/pubsub/logger.go:92-104 | takes out and ends the one subscription with that channel, if any; the others keep order, queue and state |
| `Logger.Logger.EndAll` | engine/pubsub/logger.go:118-126 | all subscriptions ended, none left, counter zero |
| `Logger.Logger.MsgToSubscribers` | engine/pubsub/logger.go:141-153 | the message goes to the end of every subscriber's queue, once |
| `Logger.Subscriber.End` | engine/pubsub/logger.go:155-157 | ended afterwards, however often it is called |
| `SemaphoreRuns.InUseIsBounded` | engine/sessions/session.go:387-484 | over any interleaving of acquires, releases and resizes, done step by step: slots in use never exceed the capacity, nor holders plus releases on their way plus releases that straddled a resize |
| `SemaphoreRuns.HoldersWithinCapacity` | engine/sessions/session.go:387-412 | while no slot was left behind by a smaller semaphore or taken too late from an old one, there are never more holders than slots |
| `SemaphoreRuns.AllFreeAtRest` | engine/sessions/session.go:414-422 | once all calls have ended and no resize is under way, all slots are free exactly when as many tokens were wasted (put into a full channel or an old one) as slots went uncounted |
| `SemaphoreRuns.AllFreeUnlessStraddled` | engine/sessions/session.go:414-422 | which is so whenever no release straddled a resize |
| `SemaphoreRuns.SlotsBalance` | engine/sessions/session.go:387-484 | over every run: slots in use, being carried over and uncounted together equal holders, releases on their way and wasted tokens; so the limit is kept exactly while no more slots are uncounted than wasted or free |
| `SemaphoreRuns.StraddledReleaseInTime` | engine/sessions/session.go:463-484 | a concrete run: a straddled release whose token is back before anything is carried over loses nothing |
| `SemaphoreRuns.StraddledReleaseLeaks` | engine/sessions/session.go:414-422 | a concrete run: one release that read the old reference just before a resize leaves one slot of the new semaphore taken with no holder |
| `SemaphoreRuns.ResizeCarriesOver` | engine/sessions/session.go:463-484 | a resize that nothing interrupts carries over min(old in use, new limit) slots; what does not fit is no longer counted |
| `SemaphoreRuns.EveryRun` | engine/sessions/session.go:387-484 | the invariants behind these hold in every reachable state |
| `SemaphoreWaits.AllServedIff` | engine/sessions/session.go:387-412 | everyone who waits on a semaphore reference can still get a slot, whatever it takes, if and only if the reference is current and no resize is under way, or as many tokens are in it or on their way to it as callers wait; the comment in the source says each such call completes |
| `SemaphoreWaits.LeftBehind` | engine/sessions/session.go:387-484 | of the callers who wait on a replaced semaphore exactly those beyond its tokens and the releases on their way to it wait for ever: never fewer in any continuation of any run, and in some continuation no more |
| `SemaphoreWaits.WaiterForgotten` | engine/sessions/session.go:387-412 | a concrete run: two callers wait when a resize begins; in the end nobody holds a slot, all slots are free, and one of the two still waits for ever |
| `SessionSemaphore.SessSemaphore.BuildNewSessionSemaphore` | engine/sessions/session.go:463-484 | the new semaphore starts with min(old in use, its capacity) slots taken, and every one carried over is given back to the old one |
| `SessionSemaphore.SessSemaphore.constructor` | engine/sessions/session.go:383-385 | all slots free |
| `SessionSemaphore.LimitIs` | engine/sessions/session.go:467-467 | the shares of all sessions fit into 500 connections and no larger equal ones would |
| `SessionSemaphore.Semaphore.constructor` | internal/net/network.go:72-80 | filled with all its tokens |
| `SessionSemaphore.Semaphore.Acquire` | internal/net/network.go:82-84 | takes one token |
| `SessionSemaphore.Semaphore.Release` | internal/net/network.go:86-91 | puts one token back, or drops it when the channel is full |
| `SessionSemaphore.Semaphore.InUse` | internal/net/network.go:100-102 | between zero and the capacity: the tokens missing |
| `FqdnSlice.SliceOfInserted` | engine/plugins/support/filter.go:18-79 | for names that end in a label: Slice lists each name once, and exactly the inserted names that are no proper label-suffix of another inserted one, in whatever order they went in |
| `FqdnSlice.SuffixIffPrefix` | engine/plugins/support/filter.go:18-41 | a name is a proper label-suffix of another exactly when its label path is a proper prefix |
| `FqdnTrie.InsertAllRepresents` | engine/plugins/support/filter.go:18-41 | after any sequence of inserts the nested maps stand for the proper prefixes of the names and the leaves for the names no other one extends |
| `FqdnTrie.InsertEffect` | engine/plugins/support/filter.go:18-41 | a path that is there changes nothing; a new one becomes a leaf and its proper prefixes nested maps |
| `FqdnTrie.PruneIsCut` | engine/plugins/support/filter.go:43-55 | every old leaf has exactly one new leaf on its path, and every new leaf is on the path of an old one |
| `FqdnTrie.PruneBounds` | engine/plugins/support/filter.go:43-55 | every map left below the root has fewer entries than the limit |
| `FqdnTrie.PruneIdempotent` | engine/plugins/support/filter.go:43-55 | pruning twice is pruning once |
| `FqdnTrie.PruneIs` | engine/plugins/support/filter.go:43-55 | path by path: what survives has no big map above it, and the topmost big maps become leaves |
| `FqdnTrie.PruneKidsWellFormed` | engine/plugins/support/filter.go:43-55 | no nested map is empty and none hangs loose after pruning |
| `FqdnNames.NameRoundTrip` | engine/plugins/support/filter.go:61-68 | a name comes back from its labels exactly when it is empty or its last label is not |
| `FqdnNames.JoinSplit` | engine/plugins/support/filter.go:19-19 | joining the labels gives the name back |
| `FqdnFilter.FQDNFilter.Insert` | engine/plugins/support/filter.go:18-41 | the in-place walk over the nested maps does to the trie what inserting the label path means |
| `FqdnFilter.FQDNFilter.Prune` | engine/plugins/support/filter.go:43-55 | the in-place recursion leaves the pruned trie |
| `FqdnFilter.FQDNFilter.PruneAt` | engine/plugins/support/filter.go:43-55 | the same for one nested map, all others keeping their place |
| `FqdnFilter.FQDNFilter.PruneEntry` | engine/plugins/support/filter.go:44-53 | one entry: a leaf stays, a big map becomes a leaf, a small one is pruned below |
| `FqdnFilter.FQDNFilter.Cut` | engine/plugins/support/filter.go:48-49 | a nested map gives way to a leaf and everything under it goes |
| `FqdnFilter.FQDNFilter.Open` | engine/plugins/support/filter.go:29-34 | a missing entry or a leaf becomes an empty nested map |
| `FqdnFilter.FQDNFilter.AddLeaf` | engine/plugins/support/filter.go:37-38 | a missing last label becomes a leaf |
| `FqdnFilter.FQDNFilter.Slice` | engine/plugins/support/filter.go:57-59 | the names of all leaves, each leaf once |
| `FqdnFilter.FQDNFilter.ProcessMap` | engine/plugins/support/filter.go:61-79 | the names of the leaves below one map, each once |
| `FqdnFilter.FQDNFilter.Close` | engine/plugins/support/filter.go:81-85 | empty afterwards |
| `FqdnFilter.FQDNFilter.constructor` | engine/plugins/support/filter.go:14-16 | empty |
| `IpBytes.IPInc` | internal/net/network.go:333-340 | in place, the successor of the bytes |
| `IpBytes.IPDec` | internal/net/network.go:343-351 | in place, the predecessor of the bytes |
| `IpBytes.SuccessorValue` | internal/net/network.go:333-340 | which is plus one modulo 256^n |
| `IpBytes.PredecessorValue` | internal/net/network.go:343-351 | which is minus one modulo 256^n |
| `IpBytes.PredecessorUndoesSuccessor` | internal/net/network.go:333-351 | IPDec undoes IPInc |
| `IpBytes.SuccessorUndoesPredecessor` | internal/net/network.go:333-351 | IPInc undoes IPDec |
| `IpBytes.CompareIsOrder` | internal/net/network.go:272-275 | comparing bytes is comparing the numbers they stand for |
| `IpNets.ContainsInterval` | internal/net/network.go:253-253 | a network contains exactly the addresses from its own to its own plus its size, except that a longer IPv6 network never contains an IPv4-mapped one |
| `IpNets.AlignDownIs` | internal/net/network.go:239-240 | clearing the low bits gives the one multiple of the block size at or below the number |
| `IpHosts.RangeHosts` | internal/net/network.go:267-293 | all addresses from start to end in order as fresh arrays, even when end is all ones; nothing for a missing end or a reversed range; the caller's own slice for a single address; and nothing for the whole IPv6 space |
| `IpHosts.AllHosts` | internal/net/network.go:249-263 | ends on every network but 0.0.0.0/0; all addresses up to the first one outside, in ascending order as fresh arrays, without first and last when there are more than two |
| `IpHosts.AllOrGap` | internal/net/network.go:253-255 | those are all addresses of the block exactly when the IPv4-mapped ones do not lie inside it |
| `IpHosts.Enumerate` | internal/net/network.go:250-256 | the loop: all contained addresses in ascending order, wrap-around included |
| `IpHosts.InsideAfter` | internal/net/network.go:253-253 | the guard holds for the k-th step exactly when k is below the number of addresses, even when the step wraps |
| `IpHosts.SlashZeroNeverEnds` | internal/net/network.go:253-255 | in 0.0.0.0/0 the guard holds for every IPv4 address |
| `IpWindow.CIDRSubset` | internal/net/network.go:297-330 | a window of num/2 addresses to either side, cut at the ends of the network and at the IPv4-mapped gap, in order; nothing when a walk in ::/0 wraps around; an address outside comes back alone, a text that is no address as nil |
| `IpWindow.WindowEnds` | internal/net/network.go:305-327 | both ends are addresses below and above the given one exactly when nothing wraps around; otherwise the first comes out above the last |
| `IpWindow.NextOnWalk` | internal/net/network.go:305-327 | each step stays inside exactly until the end of the run is reached |
| `IpWindow.PromisedWindow` | internal/net/network.go:305-327 | the window is the one between the ends of the network exactly when the network has no gap, or the walks stay on one side of it and nothing wraps around |
| `IpWindow.HalfIs` | internal/net/network.go:304-304 | half of the asked number, rounded toward zero |
| `IpWindow.EmptyWindow` | internal/net/network.go:297-330 | the window of two around the first address of ::/0 is empty |
| `IpWindow.EachUsableIPv4` | engine/plugins/support/owned_netblock.go:342-359 | the callback is called on consecutive usable addresses from the first on, until it answers false or they run out; never on a prefix that is not eligible |
| `IpWindow.EligibleIs` | engine/plugins/support/owned_netblock.go:157-162 | IPv4 prefixes of length 16 to 32 and no others are eligible, and the first address is that of their block |
| `IpWindow.EnumeratorsAgree` | engine/plugins/support/owned_netblock.go:342-359 | on every eligible prefix this is the same first address and the same number of addresses as AllHosts |
| `IpRanges.Range2CIDR` | internal/net/network.go:208-243 | for any two addresses: nothing for a reversed range; otherwise the block at first on which the loop settles: the largest that fits among those up to half the address space |
| `IpRanges.LargestIff` | internal/net/network.go:223-237 | for addresses in any form: that block is the largest aligned one in the range exactly when the range does not cover an aligned half of the space, or covers all of it |
| `IpRanges.HalfBecomesAll` | internal/net/network.go:223-237 | 128.0.0.0 to 255.255.255.255 comes out as 0.0.0.0/0 |
| `IpRanges.BlockStartsAtFirst` | internal/net/network.go:239-240 | a block that fits is, as a network, the addresses from first on that many, for addresses in any form |
| `IpRanges.ParsedContains` | internal/net/network.go:239-240 | the network parsed from an address and a length has that length and contains the address, for addresses in any form |
| `IpRanges.RoundTripIff` | internal/net/network.go:186-243 | Range2CIDR after FirstLast gives the network back exactly when its length is not one and it is no single IPv4-mapped address, which comes back in IPv4 form |
| `IpRanges.FirstLast` | internal/net/network.go:186-205 | the network's own address and the last one of its block; no result exactly for IPv4-mapped IPv6 networks below full length, where the shift runs away |
| `IpRanges.IntToIP` | internal/net/network.go:366-377 | the bytes of the number, padded to the width of the family; no result exactly when it does not fit |
| `IpRanges.IpIntRoundTrip` | internal/net/network.go:353-377 | the number of an address fits the family's width, and gives the address back, exactly when it is not an IPv4 one in 16 bytes |
| `IpRanges.Tested` | internal/net/network.go:223-231 | the loop's test with or and mask is the fit of an aligned block |
| `ResolverWalk.ResolvedIPsForFQDN` | engine/plugins/support/database.go:390-431 | on every finite graph, cyclic or not: without repetition, exactly the address nodes reachable by a path of one to five edges whose interior nodes are names |
| `ResolverWalk.WithinIffReaches` | engine/plugins/support/database.go:397-430 | the breadth-first layers are the nodes with such a path |
| `ResolverWalk.StandsStill` | engine/plugins/support/database.go:397-397 | stopping early on an empty frontier misses nothing |
| `ResolverWalk.Follow` | engine/plugins/support/database.go:400-425 | the edges of one node: unreadable ones and seen targets are skipped, new addresses collected, new names queued |
| `AsnCache.ASNCache.AddrSearch` | internal/net/asncache.go:150-192 | nothing for a text that is no address, the reserved block for a reserved one; otherwise any prefix returned covers the address and is a usable netblock of the record named: a covering index entry, and only without one a longest match over all cached netblocks, which is filed, or nothing exactly when none covers. After it the index hides no longer netblock from an address exactly if it hid none before and the filed prefix, where it covers that address, is a longest match for it too |
| `AsnCache.ASNCache.LongestIff` | internal/net/asncache.go:165-175 | a search is sure to answer with a longest match exactly when the index hides no longer netblock from the address, that is, when each of its covering entries is a longest match; the contracts of AddrSearch and Update say which calls keep it so |
| `AsnCache.EarlierEntryWins` | internal/net/asncache.go:80-192 | a concrete sequence with unreserved blocks: caching a /8, searching, caching a /16 inside it and searching again still answers the /8 |
| `AsnCache.FilledCacheHides` | internal/net/asncache.go:80-192 | and with both cached before any search: a search for an address of the /8 alone makes the /8 the answer for the /16 too |
| `AsnCache.ASNCache.LongestMatches` | internal/net/asncache.go:259-290 | no cached text is longer exactly when no match over all records is |
| `AsnCache.ASNCache.Update` | internal/net/asncache.go:80-122 | a new record is filed as given, with the request's prefix when it lists no netblocks; afterwards an old one holds exactly its own netblocks, those of the request and the request's prefix, each field it had, each it lacked from the request, and the longer description; no other record changes; the index stays right. After it the index hides no longer netblock from an address exactly if it hid none before and none of the given netblocks that cover the address is longer than a covering entry |
| `AsnCache.ASNCache.UpdateAndSearch` | internal/net/asncache.go:80-192 | right after Update brought a usable prefix, as the filling of the cache does prefix by prefix, a search for an unreserved address that the prefix covers is never without an answer |
| `AsnCache.ASNCache.RawData2Ranger` | internal/net/asncache.go:259-290 | files one longest match and nothing else, or nothing when there is no match |
| `AsnCache.ASNCache.BestMatch` | internal/net/asncache.go:260-282 | the loops over records and netblocks keep a longest match of all met so far |
| `AsnCache.ASNCache.SearchRangerData` | internal/net/asncache.go:248-257 | some covering entry whenever there is one |
| `AsnCache.ASNCache.IsReservedAddress` | internal/net/asncache.go:305-323 | finds a block exactly for the addresses in the fixed list of reserved blocks, and one that covers the address |
| `AsnCache.ReservedIs` | internal/net/network.go:39-58 | which IPv4 addresses are reserved, told by their first three bytes |
| `AsnCache.ASNCache.FindEntry` | internal/net/asncache.go:165-175 | a covering entry leaves the index alone; without one the index gains the longest match |
| `AsnCache.CompareCIDRSizes` | internal/net/asncache.go:292-303 | one exactly when the first prefix is longer, minus one exactly when the second is |
| `AsnCache.MergedHas` | internal/net/asncache.go:107-121 | merging netblocks keeps the old ones in front and adds all new ones |
| `AsnCache.MergedDistinct` | internal/net/asncache.go:107-121 | and repeats none |
| `VizGraph.VizData` | internal/viz/viz.go:40-211 | the walk is done exactly when the search back from every entity it visits comes back, and otherwise hangs at one it has reached; where labels tell entities apart and no pointer record is looked back along, it hangs exactly when an entity that hangs can be reached at all. When done, nodes are numbered densely with unique labels, every edge comes from a relation that is followed, and the visited entities, all reached from the starting ones, have all their followed relations drawn and account for every label |
| `VizGraph.HangsIff` | internal/viz/viz.go:264-280 | whether the search from an entity ever comes back is settled by nested calls as deep as there are names |
| `VizGraph.BoundedNeverHangs` | internal/viz/viz.go:264-306 | bounded walks back along the aliases rule it out beforehand |
| `VizGraph.WalkThatHangs` | internal/viz/viz.go:99-105 | a concrete graph, walked from a name in scope: a record of it leads to a name out of scope without records of its own, of which one of two aliases of each other is an alias; the walk hangs there |
| `VizGraph.RouteVisited` | internal/viz/viz.go:62-209 | where labels tell entities apart and no pointer record is looked back along, a walk that is done has visited every entity on a route of followed relations from the start |
| `VizGraph.EndpointsAreNodes` | internal/viz/viz.go:66-75 | edge ends are node numbers, labels are unique and the index has one entry per node |
| `VizGraph.ArrowsPointForward` | internal/viz/viz.go:132-205 | whichever end was visited, the arrow points from the entity a relation leaves to the one it enters, between the numbers of their labels; every followed relation has its arrow and there are no others |
| `VizGraph.FollowedOut` | internal/viz/viz.go:80-131 | kind by kind which relations out of an entity are followed |
| `VizGraph.FollowedIn` | internal/viz/viz.go:80-131 | and which into it |
| `VizGraph.AssociatedIs` | internal/viz/viz.go:264-306 | a name with records of its own is associated exactly when one leads to a name in scope; one without, when the search returns, exactly when a chain of aliases leads to it from a name in scope |
| `VizGraph.Round` | internal/viz/viz.go:62-209 | one round visits its entities or hangs at one of them; what it queues is paid for by labels used up |
| `VizGraph.Visit` | internal/viz/viz.go:66-207 | one entity: it hangs exactly when it is a name out of scope without records of its own whose search back never comes back; otherwise its node exists and all its followed relations are drawn |
| `VizGraph.Follow` | internal/viz/viz.go:132-205 | the relations of one entity in one direction |
| `VizGraph.Place` | internal/viz/viz.go:71-79 | a label keeps its number or gets the next one |
| `ScopeSearch.AnswerIsRight` | internal/viz/viz.go:282-306 | when the search back along aliases returns, it says whether a chain leads to a name in scope |
| `ScopeSearch.ComesBackIffBounded` | internal/viz/viz.go:282-306 | for a name without such a chain it returns exactly when the walks back from it are bounded |
| `ScopeSearch.ComesBackIffTrailEnds` | internal/viz/viz.go:282-306 | for every name: it returns exactly when the way from each first undecided name to the next, each with a chain to a name in scope, comes to an end |
| `ScopeSearch.EnoughDepth` | internal/viz/viz.go:282-306 | a search that needs more nested calls than there are names with aliases never returns |
| `ScopeSearch.ComesBack` | internal/viz/viz.go:282-306 | it always returns when they are |
| `ScopeSearch.NeverComesBack` | internal/viz/viz.go:282-306 | out of scope, a name one of two aliases of each other leads to: it never returns |
| `D3Graph.CountDegrees` | internal/viz/d3.go:346-363 | the in-place counts are the numbers of edge ends per node, and the maximum is theirs |
| `D3Graph.WalkHandshake` | internal/viz/d3.go:346-355 | for the walk's output the degrees sum to twice the edges |
| `WaitLoop.Wait` | internal/enum/cli.go:312-427 | the second pass starts at the first event that is the timer or the fifth idle poll in a row; done is closed at the first event after it that is the fifth idle poll in a row with the hook done, or a poll with the hook done and work not idle at least two minutes after the hook was first seen done. Failed polls do not break a row. Requests are one plus one per failed question |
| `WaitLoop.Second` | internal/enum/cli.go:355-402 | one event of the second pass closes done exactly under that condition |
| `WaitLoop.First` | internal/enum/cli.go:404-427 | one event of the first pass starts the second exactly under that condition |
| `WaitLoop.TrailIs` | internal/enum/cli.go:369-416 | the counter the loop keeps is the length of the row of good polls |
| `EndWork.HookRunsOnce` | engine/sessions/manager.go:123-144 | over any interleaving of calls the hook starts at most once per session, and a session counts as done only after the hook has returned |
| `EndWork.StartedCanBeDone` | engine/sessions/manager.go:123-144 | once the work has been requested the session counts as done after at most three more steps of the winning call, whatever others do: nothing but the hook itself is waited for |
| `EndWork.ClosedAfterHook` | internal/enum/cli.go:358-391 | when the wait loop closes done, the hook has returned |
| `EndWork.EveryRunIsSafe` | engine/sessions/manager.go:123-144 | the call that won is at exactly one point of its way until the session is marked done |
| `EndWork.Manager.RunEndWork` | engine/sessions/manager.go:123-139 | runs the hook exactly for a known session not marked yet, if a hook is set, and a known session is done afterwards |
| `EndWork.Manager.CancelSession` | engine/sessions/manager.go:81-115 | takes the session out; the hook is not run |
| `EndWork.Manager.AddSession` | engine/sessions/manager.go:59-72 | the session is known afterwards |
| `EndWork.Manager.SetShutdownHook` | engine/sessions/manager.go:74-78 | the hook is set as asked |
| `MaskExpansion.ExpandMask` | config/wordlist.go:28-66 | fails exactly on more than three wildcards or an unknown class; a good mask gives exactly its words, each once, as many as the product of the class sizes; a dangling last '?' gives the empty list without error |
| `MaskExpansion.WildcardsAre` | config/wordlist.go:17-50 | for every word, without reference to the classes: which words ?d, ?l, ?u, ?s and ?a stand for, and that they are 10, 26, 26, 1 and 37 |
| `MaskExpansion.ClassHas` | config/wordlist.go:36-50 | which characters a wildcard stands for, and how many |
| `MaskExpansion.ProperIff` | config/wordlist.go:36-50 | a wildcard is improper exactly when its letter is none of the five |
| `MaskExpansion.ExpandMaskWordlist` | config/wordlist.go:69-79 | exactly the words of the masks that can be expanded |
| `MaskExpansion.FilledMatches` | config/wordlist.go:51-58 | the words of a mask are those of its replacements of the first wildcard, which share none |
| `MaskExpansion.OneMoreCharacter` | config/wordlist.go:51-58 | each further character adds its words without repetition |

## Left out

- Fair scheduling: that goroutines that can go on do, that wake-ups arrive and that a drained session is noticed; proved are safety and that it is always possible to finish.
- The pump's shuffled loop over all sessions: `Dispatcher` models the visit of one session, the transition system any order of visits.
- Dispatcher.Dispatcher.PumpVisit: runs one visit without interference; other goroutines between its steps are the subject of the transition system.
- Dispatcher.Session.CalculateStats: reads all types from one state of the store; the source reads type after type while rows move.
- Errors of the store on a live session.
- Backlog.BacklogDB.ClaimNext: leaves out the branch for a positive lease time, in which expired leases can be claimed again, because sessions run with a lease time of zero.
- Next's wait on the pipeline queue, the queue's finished-session test beyond a set of finished sessions, and the clean-up of metadata of removed sessions.
- The internals of the pipeline, queue, ranger and database packages: a pipeline is a sequence of stages, a queue a sequence, the ranger a map from networks to records, the asset graph a finite map.
- Handlers without a callback or a plugin, and interleaving inside the callbacks of one parallel stage: they run one after the other, in any order.
- White space and letters outside ASCII in names: trimming and lower-casing treat ASCII only.
- SemaphoreRuns.InUseIsBounded: needs limits of at least one; with more than 500 sessions the limit is zero and the channel unbuffered, which is not modelled.
- AsnCache.ASNCache.AddrSearch: leaves open which covering index entry answers; the order in which the ranger lists them is that package's own.
- Reading and printing addresses and networks as text: an address is its bytes, and the cache takes parsing and printing as parameters.
- The no-progress timer, its resets, progress bars and messages of the wait loop: the timer is an event that may come at any time.
- WaitLoop.Wait: an interrupt that closes done from outside is not one of its events.
- The database calls that fill the AS cache and that find the visualisation's first entities: they are parameters.
- VizGraph.VizData: takes the test of a name against the configured domains, a comparison of texts, as a flag of the name; the search back along aliases is part of the model.
- Colours, titles and templates of the drawing.
- API and scrape plugins, DNS queries, HTTP clients, configuration loading and the command line: input and output around similar steps.
- The alterations of brute-forced names and the certificate walk, whose results the code does not determine.
