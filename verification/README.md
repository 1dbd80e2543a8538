# Verified model of the OPC UA stack

A Dafny model of the stateful parts of an OPC UA client and server stack, with proofs about every run
of them. `dafny verify dfyconfig.toml` verifies the whole project.

The model follows one pattern throughout. Each component is first a value with a step function: what
one service call, one backing event or one piece of a coroutine does to it. Safety over whole runs is
proved about sequences of such steps. Beside it stands a class with the fields and loops of the
original, whose methods are proved to follow the step functions. Where the original suspends (a bind on
the backing subscription, the authenticator, the transport, a creation on the server), the model has
two steps and anything may happen between them.

What a step function answers or leaves is in turn stated without it, over the run that led there: by the
last request that set a field, the step that gave an answer, the frame or the report that arrived.

- **Server subscription** (`PendingQueue`, `Retransmission`, `Bindings`, `Subscription`,
  `SubscriptionRuns`, `SubscriptionTheorems`, `Arrivals`, `ItemHistory`, `PublishAnswers`, `Crowding`,
  `Starvation`, `ServerSubscription`): the shared pending queue trimmed per item, the bounded
  retransmission queue, the publish clock, and the asynchronous binding of items to a backing
  subscription. A run carries a ledger of everything queued, sent, acknowledged, evicted and granted.
- **Server session** (`Rotation`, `Session`, `SessionRuns`, `KeepAlives`, `Acknowledgements`,
  `ServerSession`, `Browse`): the round-robin publish scheduler, who it passes over, acknowledgement by
  groups, browse continuation points.
- **Sessions and runtime** (`Sessions`, `SessionHistory`, `ServerSessionManager`, `Runtime`,
  `RuntimeRuns`, `Transfers`, `Ownership`, `HeldSubscriptions`, `ServerRuntime`): who may have a session,
  and the index from subscription to owning session.
- **Client channel** (`Channel`, `ChannelRuns`, `ChannelAnswers`, `ChannelTurns`, `ChannelFairness`,
  `ClientChannel`): the send turn and its waiters, the read loop, matching responses to requests, renewing
  the security token.
- **Client subscription** (`ClientItems`, `ClientHistory`, `ClientSubscription`): the lazily created
  subscription, the items parked meanwhile, cancelling an item while its creation is in flight, and
  closing a view.
- **Schema and codec** (`Schema`, `StructSorter`, `Codec`, `CodecTheorems`, `WireForm`, `CodecReads`,
  `BinaryCodec`): the generator's structure sorter, and the binary codec it emits, interpreted over a
  schema as data.
- **Smaller cores** (`Endpoints`, `EventIds`, `EventFields`, `EventFilters`): matching endpoint sets,
  event identifiers, event projection, event filter conversion.

## Where the code and what is said about it differ

- A modify that shrinks a monitored item's queue trims nothing, and queueing trims one entry at a time:
  `WithinLimitExactly`, `ShrunkItemIsOverfull`, `OverfullStays`.
- An item can wait for ever although each of its entries moves forward. This is so exactly when it
  keeps its newest entries and the queue sizes of the other reporting items add up to at least the
  per-publish limit: `StarvesExactly`, `StarvationReachable`, against `EntryDelivered`.
- The revised lifetime is three keep-alives only while the 32-bit product does not wrap:
  `ReviseLifetimeExact`.
- Two overlapping first activations of one token make the runtime replace a session object that may
  already hold subscriptions: `OverlapLosesSubscription`, and `IndexExactExactly` for when exactly.
- The comment that the session being activated is never evicted by its own activation
  (opcua/session/server_session_manager.cpp:300-304) fails for such overlaps and holds without them:
  `OverlapEvictsItself`, `WaitingIsNobodys`.
- The comment that a renewal is the only reader (opcua/client/client_channel.cpp:141-149) holds for
  `Call`, but not when `Send` and `Receive` are used separately: `RenewalReadsAlone`,
  `SplitUseReadsDuringRenewal`.
- A poll serves subscriptions with data first, so one whose keep-alive is due can be passed over for
  ever. This is so exactly when another subscription has a reporting item, or is disabled with entries
  waiting: `WaitsExactly`, against `BoundedBypass` for subscriptions with data.
- A request woken for the send turn loses it to any request that starts before it runs, and queues
  again at the back: `WaiterOvertaken` for any number of times, against `NobodyMisses` and `PoliteBound`
  when none starts in between.
- Items can be added to a client view after it was closed, and nothing removes them:
  `ClosedViewKeepsNothing` for when exactly, `ClosedViewLeaks`.
- Not every array element takes a byte (tools/gen_ua_types.py:494): `DecodeExactly`,
  `EmptyStructureRefused`.

## Model

| member | source | states |
|---|---|---|
| `SubscriptionTheorems.NotificationsConserved` | opcua/session/server_subscription.cpp:263-360 | In every run, whatever the steps of the run queued is delivered, waiting or dropped, and only one of these; what the publishes were answered with, followed by what waits, is an in-order subsequence of what the steps queued |
| `SubscriptionTheorems.DropsJustified` | opcua/session/server_subscription.cpp:706-731 | Every entry dropped in a run was dropped at a step of it that either queued another entry of the same item, in a state where this put the item over its limit and the entry was the item's oldest in the queue (its newest, if it keeps the oldest), or deleted the item while the entry waited; a deleted item never comes back |
| `SubscriptionTheorems.QueueWithinPeak` | opcua/session/server_subscription.cpp:706-731 | An item never has more waiting than some effective queue size it has had at a point of the run, so not more than the largest |
| `SubscriptionTheorems.WithinLimitExactly` | opcua/session/server_subscription.cpp:152-181 | Throughout a run an item has no more waiting than its size at that moment, if and only if no modify of it asks for a smaller size than it has waiting at that moment |
| `SubscriptionTheorems.ShrunkItemIsOverfull` | opcua/session/server_subscription.cpp:152-181 | A run in which an item with queue size 1 has two entries waiting |
| `SubscriptionTheorems.OverfullStays` | opcua/session/server_subscription.cpp:713-731 | An item over its limit keeps exactly the number of entries it has until a publish, delete or modify, however much is queued for it |
| `SubscriptionTheorems.EntryProgress` | opcua/session/server_subscription.cpp:311-324 | An entry never moves back, and every publish with data moves it forward by the per-publish limit or takes it out |
| `SubscriptionTheorems.EntryDelivered` | opcua/session/server_subscription.cpp:311-324 | With a constant limit m, the entry at position pos is delivered or dropped by the time ceil((pos + 1) / m) publishes have carried data |
| `Starvation.ItemStarves` | opcua/session/server_subscription.cpp:311-324 | From every state in which a reporting item keeps its newest entries and the sizes of the other reporting items add up to the per-publish limit, there is for every n a run of reports and publishes whose n data publishes all pass the item over |
| `Starvation.ItemServed` | opcua/session/server_subscription.cpp:311-324 | In every other case the data publishes that pass a waiting item over are bounded from the start: by its place in the queue, or by what the others have waiting beyond their sizes |
| `Starvation.StarvesExactly` | opcua/session/server_subscription.cpp:706-731 | In every reachable state a waiting item can be passed over by any number of data publishes if and only if it reports, keeps its newest entries, and the sizes of the other reporting items add up to at least the per-publish limit |
| `Starvation.StarvationReachable` | opcua/session/server_subscription.cpp:117-150 | A run from a fresh subscription to such a state, with two items and a per-publish limit of two |
| `SubscriptionTheorems.RepublishAfterRun` | opcua/session/server_subscription.cpp:263-398 | In every reachable state the retained total is the size of the held messages and at most 1024, held numbers increase and are above all evicted ones, data messages are numbered 1, 2, 3, ..., keep-alives take no number, and Republish answers with the original message exactly while no step of the run acknowledged it while it was held, and no publish of the run evicted it, its size and all after it being over the bound |
| `SubscriptionTheorems.GrantsAccounted` | opcua/session/server_subscription.cpp:543-615 | In every run each backing id granted is held by a live item or has been released, grant for grant; one granted once is held by one live item or released once; live items have distinct handles |
| `SubscriptionTheorems.AbandonedHandleIsDead` | opcua/session/server_subscription.cpp:617-637 | A handle no live item has is never bound again, and a notification under it changes nothing, in any later state |
| `SubscriptionTheorems.ReadyExactlyAtDeadline` | opcua/session/server_subscription.cpp:72-115 | A subscription is ready if and only if its next deadline has passed, TryPublish answers exactly then, and afterwards it is not ready at the same instant |
| `SubscriptionTheorems.ReviseLifetimeExact` | opcua/session/server_subscription.cpp:25-35 | The revised lifetime is at least three keep-alives if and only if the 32-bit product does not wrap |
| `PendingQueue.Victim` | opcua/session/server_subscription.cpp:713-731 | An item gives up an entry exactly when over its limit: its oldest, or its newest when it keeps the oldest |
| `PendingQueue.PushCount` | opcua/session/server_subscription.cpp:706-731 | Queueing grows an item's share by one up to its limit and changes no other item's share |
| `PendingQueue.PushBalanced` | opcua/session/server_subscription.cpp:706-731 | Queueing and trimming keep the ledger of notifications balanced |
| `PendingQueue.PushDrops` | opcua/session/server_subscription.cpp:713-731 | What queueing drops is the oldest or newest entry of an item that is over its limit, and the causes of earlier drops stand |
| `PendingQueue.DeleteBalanced` | opcua/session/server_subscription.cpp:183-221 | Purging the entries of deleted items keeps the ledger balanced |
| `PendingQueue.DeleteDrops` | opcua/session/server_subscription.cpp:183-221 | What deleting drops was waiting for one of the items deleted |
| `PendingQueue.DrainBalanced` | opcua/session/server_subscription.cpp:311-324 | Draining the front of the queue into a message keeps the ledger balanced |
| `PendingQueue.BalancedCovers` | opcua/session/server_subscription.cpp:263-360 | A balanced ledger leaves no entry unaccounted for and none accounted for twice |
| `Retransmission.AckFaithful` | opcua/session/server_subscription.cpp:374-390 | Acknowledging keeps the held messages faithful to what was sent and their cached total exact |
| `Retransmission.SendFaithful` | opcua/session/server_subscription.cpp:326-360 | Retaining a message and evicting the oldest does so too, and keeps the bound |
| `Retransmission.EvictSuffix` | opcua/session/server_subscription.cpp:326-360 | Eviction keeps a suffix: it drops the oldest messages, and no more than the bound requires |
| `Retransmission.RepublishExact` | opcua/session/server_subscription.cpp:362-372 | Republish finds a sent message exactly while it is neither acknowledged nor evicted |
| `Bindings.RebindTidy` | opcua/session/server_subscription.cpp:543-593 | Binding again releases the old grant once and leaves every grant accounted for |
| `Bindings.SettleTidy` | opcua/session/server_subscription.cpp:595-615 | A bind result, late or not, leaves every grant accounted for |
| `Bindings.LateResult` | opcua/session/server_subscription.cpp:595-615 | A result for an item that is gone or bound anew changes no item and releases exactly what was granted |
| `Bindings.DeleteEachTidy` | opcua/session/server_subscription.cpp:183-221 | Deleting items releases their grants once each |
| `Arrivals.QueuesArrived` | opcua/session/server_subscription.cpp:595-704 | A step queues exactly what arrives with it: a reported value or event of a reporting item, under its client handle and as reported, or the status of an item whose bind or backing subscription has failed |
| `Arrivals.ReportQueued` | opcua/session/server_subscription.cpp:617-696 | In every reachable state a report under a live item's handle queues one entry of that item, with its client handle and the value or fields reported, if and only if the item reports and, for a value, the deadband passes |
| `Arrivals.QueuedArrived` | opcua/session/server_subscription.cpp:595-711 | What a run queues is what arrived with its steps, in order, each entry once, and with every other step nothing arrived |
| `Arrivals.DeliveredArrived` | opcua/session/server_subscription.cpp:311-324 | Every datum the publishes of a run carry arrived, as it is, with a step of the run, in that order; what arrived and is not delivered waits or was dropped |
| `ItemHistory.ItemExactly` | opcua/session/server_subscription.cpp:117-252 | In every run an item is there exactly while a create has taken it and no delete has named it since; it has the attribute it was created for and the parameters and mode it was last given |
| `ItemHistory.BindingExactly` | opcua/session/server_subscription.cpp:543-615 | A live item is bound under the handle the last step that bound it took; its backing id is the one granted to that binding since, at most once, and none before |
| `ItemHistory.StartedExactly` | opcua/session/server_subscription.cpp:543-553 | The backing subscription has been started exactly if a create of a supported attribute could start it |
| `ItemHistory.CreateAnswered` | opcua/session/server_subscription.cpp:117-150 | A create succeeds if and only if the attribute is supported and the backing subscription starts or has been started; the answer has the new item's id, interval and queue size, or the reason and no item |
| `ItemHistory.ModifyAnswered` | opcua/session/server_subscription.cpp:152-181 | A modify of a live item always succeeds, binds it again with the new parameters and touches no other item; any other is refused |
| `ItemHistory.DeleteAnswered` | opcua/session/server_subscription.cpp:183-221 | Of several deletions of one item in a request only the first succeeds |
| `ItemHistory.SetModeAnswered` | opcua/session/server_subscription.cpp:223-252 | A mode request succeeds for the items that are there and changes only their modes |
| `PublishAnswers.AnswerExactly` | opcua/session/server_subscription.cpp:263-360 | Every answer in a reachable state: the id the subscription was created with; the front of the queue, as much as was asked for up to 1000, if publishing is enabled; more exactly if entries are left that may be sent; the number of the next data message; and, in order, exactly the numbers Republish answers |
| `PublishAnswers.AnsweredExactly` | opcua/session/server_subscription.cpp:72-115 | After every run a publish is answered if and only if one interval has passed since the last answer or the creation, when there is data to send or nothing was answered yet, and otherwise as many intervals as the keep-alive count; that time is the deadline reported |
| `PublishAnswers.ClockExactly` | opcua/session/server_subscription.cpp:263-360 | The clock runs from the last answer of the run, and from the creation before the first |
| `PublishAnswers.ParamsExactly` | opcua/session/server_subscription.cpp:25-70 | After every run the parameters are those last asked for, with three keep-alives where none were, and the lifetime raised to the wrapped product |
| `PublishAnswers.AcknowledgeAnswered` | opcua/session/server_subscription.cpp:254-261 | Acknowledging succeeds exactly for a message that can be had again, once in a request, and afterwards exactly those messages cannot be had again |
| `SubscriptionRuns.StepKeeps` | opcua/session/server_subscription.cpp:117-360 | Every step of a subscription keeps all ledgers at once: notifications, drops, queue peaks, messages and grants |
| `SubscriptionRuns.History` | opcua/session/server_subscription.cpp:37-49 | The ledgers of a run from a fresh subscription, which hold in the state it reaches |
| `Retransmission.SendEvicts` | opcua/session/server_subscription.cpp:326-360 | Retaining a message evicts a held one if and only if it, all after it and the new one together are over the bound |
| `SubscriptionRuns.LedgerIsOfRun` | opcua/session/server_subscription.cpp:263-390 | The ledger's entries are those the steps of the run queue; a number is acknowledged in it if and only if a step of the run is answered Good for it, and evicted if and only if a publish of the run put it over the bound |
| `SubscriptionRuns.MailIsSent` | opcua/session/server_subscription.cpp:326-360 | The messages of the ledger are exactly those with data that the publishes of the run were answered with |
| `Subscription.CreateAllRuns` | opcua/session/server_subscription.cpp:117-150 | A create request is a run of its parts |
| `Subscription.ModifyAllRuns` | opcua/session/server_subscription.cpp:152-181 | A modify request is a run of its parts |
| `Subscription.SetModeAllRuns` | opcua/session/server_subscription.cpp:223-252 | A mode request is a run of its parts |
| `Subscription.AcknowledgeAllRuns` | opcua/session/server_subscription.cpp:254-261 | An acknowledge request is a run of its parts |
| `Subscription.NotifyAllRuns` | opcua/session/server_subscription.cpp:617-637 | A batch of notifications is a run of its parts |
| `Subscription.ErrorAllRuns` | opcua/session/server_subscription.cpp:639-643 | A failed backing subscription is a run of item errors, in any order of the items |
| `ServerSubscription.ServerSubscription.constructor` | opcua/session/server_subscription.cpp:37-49 | A fresh subscription is the initial value |
| `ServerSubscription.ServerSubscription.ModifySubscription` | opcua/session/server_subscription.cpp:55-66 | Follows the modify step, and refuses a request for another subscription |
| `ServerSubscription.ServerSubscription.SetPublishingEnabled` | opcua/session/server_subscription.cpp:68-70 | Follows the enable step |
| `ServerSubscription.ServerSubscription.RebindItem` | opcua/session/server_subscription.cpp:543-576 | Releases the old binding, takes a fresh handle and puts a bind in flight, or answers why not and changes nothing but the status |
| `ServerSubscription.ServerSubscription.RemoveBackingItem` | opcua/session/server_subscription.cpp:472-494 | Issues one removal for a granted id, none for id 0 |
| `ServerSubscription.ServerSubscription.CreateMonitoredItems` | opcua/session/server_subscription.cpp:117-150 | Items and answers, with status, id, revised sampling interval and revised queue size, are those of creating one after the other |
| `ServerSubscription.ServerSubscription.ModifyMonitoredItems` | opcua/session/server_subscription.cpp:152-181 | Items and answers, with status, revised sampling interval and revised queue size, are those of modifying one after the other, the queue untouched |
| `ServerSubscription.ServerSubscription.DeleteMonitoredItems` | opcua/session/server_subscription.cpp:183-221 | Items are forgotten and their entries purged; follows the delete step |
| `ServerSubscription.ServerSubscription.SetMonitoringMode` | opcua/session/server_subscription.cpp:223-252 | Items and answers are those of setting modes one after the other |
| `ServerSubscription.ServerSubscription.EnforceQueueLimit` | opcua/session/server_subscription.cpp:713-731 | The scanning loop removes exactly the entry the item has to give up |
| `ServerSubscription.ServerSubscription.QueueNotification` | opcua/session/server_subscription.cpp:706-711 | Appends and trims as the value model does |
| `ServerSubscription.ServerSubscription.QueueItemStatus` | opcua/session/server_subscription.cpp:698-704 | Queues the status of an item as the value model does |
| `ServerSubscription.ServerSubscription.QueueReport` | opcua/session/server_subscription.cpp:674-696 | Queues a reported value or event of a reporting item, a value only if it passes the deadband |
| `ServerSubscription.ServerSubscription.OnBindResult` | opcua/session/server_subscription.cpp:595-615 | Follows the bind-result step |
| `ServerSubscription.ServerSubscription.OnNotifications` | opcua/session/server_subscription.cpp:617-637 | Follows the notification steps of a batch |
| `ServerSubscription.ServerSubscription.OnSubscriptionError` | opcua/session/server_subscription.cpp:639-643 | Queues a status for every live item, in whatever order the table is walked |
| `ServerSubscription.ServerSubscription.PrimePublishCycle` | opcua/session/server_subscription.cpp:96-100 | Starts the publish clock once |
| `ServerSubscription.ServerSubscription.Drain` | opcua/session/server_subscription.cpp:311-324 | The drain loop takes the front of the queue, in order |
| `ServerSubscription.ServerSubscription.KeepForRepublish` | opcua/session/server_subscription.cpp:326-360 | The evict loop keeps the bound as the value model does |
| `ServerSubscription.ServerSubscription.TryPublish` | opcua/session/server_subscription.cpp:263-360 | State and response are those of the publish step: nothing, a keep-alive or data |
| `ServerSubscription.ServerSubscription.AcknowledgeEach` | opcua/session/server_subscription.cpp:254-261 | Acknowledges one number after the other |
| `ServerSubscription.ServerSubscription.AcknowledgeOne` | opcua/session/server_subscription.cpp:374-390 | Removes the held message with that number, or answers that it is unknown |
| `ServerSubscription.ServerSubscription.RepublishMessage` | opcua/session/server_subscription.cpp:362-372 | Answers with the held message, or that it is not available |
| `ServerSubscription.ServerSubscription.AvailableSequenceNumbers` | opcua/session/server_subscription.cpp:392-398 | The numbers of the held messages, in order |
| `Rotation.NextIsNearest` | opcua/session/server_session.cpp:386-404 | The turn found is the one nearest to the cursor, and one is found whenever someone is ready |
| `Rotation.TurnApproaches` | opcua/session/server_session.cpp:378-404 | A turn goes to a ready subscription, or to a nearer one, and then strictly fewer turns are ahead of it |
| `Rotation.EraseApproaches` | opcua/session/server_session.cpp:358-376 | Removing another subscription never puts more turns ahead |
| `Rotation.AppendDelays` | opcua/session/server_session.cpp:30-50 | A new subscription puts at most one more turn ahead |
| `SessionRuns.BoundedBypass` | opcua/session/server_session.cpp:211-271 | While a subscription stays ready with data, the polls serving others are at most the turns ahead of it plus one for each subscription that joins, whatever is deleted or transferred away |
| `KeepAlives.WaitsExactly` | opcua/session/server_session.cpp:211-271 | A subscription without data can be passed over by any number of polls at which its keep-alive or first response is due, if and only if another subscription has an item that reports, or is disabled with entries waiting |
| `KeepAlives.WaitsForever` | opcua/session/server_session.cpp:213-216 | In that case there is for every n a run of reports and polls whose n polls all pass it over |
| `KeepAlives.LeftFalls` | opcua/session/server_session.cpp:211-271 | Otherwise the polls that pass it over are bounded from the start, by the entries the others have waiting and the turns ahead of it |
| `Session.PollServesOrWaits` | opcua/session/server_session.cpp:211-271 | A poll answers from a ready subscription whenever there is one; otherwise it waits exactly until the earliest deadline, or for the shortest publishing interval if that is over sooner, or reports that there is no subscription |
| `Session.PollRemovesReady` | opcua/session/server_session.cpp:211-271 | A poll takes the subscription it serves, and only that one, out of the ready ones |
| `Session.FrozenClock` | opcua/session/server_runtime.cpp:462-484 | At a frozen clock, as many polls as there are ready subscriptions serve each of them once, and the next poll waits |
| `Acknowledgements.InOrderBySubscription` | opcua/session/server_session.cpp:176-209 | Acknowledging in request order does to each subscription what its own acknowledgements do to it |
| `Acknowledgements.InOrderAnswers` | opcua/session/server_session.cpp:176-209 | Its answers are those each acknowledgement gets within its own group |
| `Acknowledgements.GroupAnswer` | opcua/session/server_session.cpp:193-206 | The answer at a place of the request is the one its group gives at the matching place, duplicates included |
| `Acknowledgements.AnswersExactly` | opcua/session/server_session.cpp:176-209 | An acknowledgement succeeds if and only if its subscription is there and can send the message again, and the request has not acknowledged it before; otherwise it says which of these fails |
| `Session.DropAllExact` | opcua/session/server_session.cpp:78-95 | Deleting takes away exactly the subscriptions named, and of several requests for one only the first succeeds |
| `ServerSession.ServerSession.CreateSubscriptionWithId` | opcua/session/server_session.cpp:30-50 | A new subscription joins at the end of the publish order |
| `ServerSession.ServerSession.EraseSubscription` | opcua/session/server_session.cpp:358-376 | The subscription leaves and the cursor stays on the turn it was on |
| `ServerSession.ServerSession.DeleteSubscriptions` | opcua/session/server_session.cpp:78-95 | State and answers are those of erasing one after the other |
| `ServerSession.ServerSession.TransferSubscriptionsFrom` | opcua/session/server_session.cpp:97-130 | Both sessions and the answers are those of moving one after the other; from itself a session moves nothing |
| `ServerSession.ServerSession.FindNextReadySubscription` | opcua/session/server_session.cpp:386-404 | The scan finds the nearest ready turn, or that there is none |
| `ServerSession.ServerSession.PollPublish` | opcua/session/server_session.cpp:211-271 | Session and result are those of a poll |
| `ServerSession.ServerSession.GroupAcknowledgements` | opcua/session/server_session.cpp:178-191 | Groups the acknowledgements of known subscriptions in request order and refuses the others |
| `ServerSession.ServerSession.AcknowledgePublishRequest` | opcua/session/server_session.cpp:176-209 | For any order of the groups, final retransmission queues and answers equal those of acknowledging in request order |
| `Browse.PagingConserves` | opcua/session/server_session.cpp:412-462 | In every run points are given out once, used at most once and only after being given out, a first page and its one BrowseNext make up the original list, and at most 100 points are held |
| `Browse.PointGoodExactly` | opcua/session/server_session.cpp:306-330 | A point is good if and only if it was given out and has not been used |
| `Browse.FirstPageExactly` | opcua/session/server_session.cpp:412-448 | After every run a result that fits is answered whole; one that does not, with the first references asked for and a point never given out before, or refused when 100 are held |
| `Browse.NextPageExactly` | opcua/session/server_session.cpp:306-330 | A good point is answered with all its page left out, or nothing if it is released, and never with another point |
| `Browse.FirstAllRuns` | opcua/session/server_session.cpp:293-304 | Paging a browse response is a run of its parts |
| `Browse.NextAllRuns` | opcua/session/server_session.cpp:306-330 | A BrowseNext request is a run of its parts |
| `Browse.BrowseContinuations.PageBrowseResult` | opcua/session/server_session.cpp:419-448 | Cuts a result and keeps the rest behind a new point, or refuses when 100 are held |
| `Browse.BrowseContinuations.StoreBrowseResults` | opcua/session/server_session.cpp:293-304 | Pages the results one after the other |
| `Browse.BrowseContinuations.BrowseNext` | opcua/session/server_session.cpp:306-330 | Uses the points one after the other, for the rest or to release them |
| `Sessions.SingleSessionHolds` | opcua/session/server_session_manager.cpp:258-332 | However authentications overlap, a user always authenticated as single-session has at most one session in every reachable state |
| `Sessions.DetachedNeverBlocks` | opcua/session/server_session_manager.cpp:272-317 | A single-session logon is refused for being logged on if and only if a session of the user is attached and may not be deleted; otherwise all the user's sessions go, and the activation succeeds unless its own session went with them or is gone |
| `Sessions.FinishGoodExactly` | opcua/session/server_session_manager.cpp:272-317 | An activation is let in if and only if the user is authenticated and the session still there, and a user limited to one session has no attached one (or may delete it) and is not the session's user already |
| `Sessions.RemovalsReported` | opcua/session/server_session_manager.cpp:409-435 | In every run the tokens reported removed are exactly those given out whose sessions are gone, each once |
| `SessionHistory.BeginExactly` | opcua/session/server_session_manager.cpp:156-257 | In every state the first half of an activation resumes, activates, waits for the authenticator or is refused, with which status, if and only if: the session is there and unexpired or not, its signature holds, it was activated already, and what the identity token came to |
| `SessionHistory.FinishExactly` | opcua/session/server_session_manager.cpp:258-332 | In every state the second half is answered with each status exactly when, and drops exactly the other sessions of a user limited to one |
| `SessionHistory.CreateCloseExactly` | opcua/session/server_session_manager.cpp:101-394 | In every state creating a session is refused exactly for a certificate that is not the channel's, closing one exactly if it is not there, and what each reports removed are the expired sessions and the one closed |
| `SessionHistory.LivesExactly` | opcua/session/server_session_manager.cpp:101-435 | In every run a session is there exactly while it has been given out and nothing has ended it since: an expiry found, a close, or another logon of its user; its timeout is the one asked for, within the bounds |
| `SessionHistory.ActivatedExactly` | opcua/session/server_session_manager.cpp:156-332 | A live session is activated if and only if some step of the run was an anonymous activation of it while it was there, or the end of an activation that let its user in |
| `SessionHistory.AttachedExactly` | opcua/session/server_session_manager.cpp:186-196 | A connection serves a live session if and only if it was activated or resumed and no connection has detached since |
| `SessionHistory.ExpiresExactly` | opcua/session/server_session_manager.cpp:186-332 | A live session expires one timeout after it was last given out, activated or resumed |
| `SessionHistory.UserExactly` | opcua/session/server_session_manager.cpp:312-332 | The user of a live session is the one that the last activation to end well let in |
| `ServerSessionManager.ServerSessionManager.PruneExpiredSessions` | opcua/session/server_session_manager.cpp:409-435 | Drops exactly the expired sessions and reports each once |
| `ServerSessionManager.ServerSessionManager.RemoveSessionsByUser` | opcua/session/server_session_manager.cpp:500-522 | Drops exactly the user's sessions and reports each once |
| `ServerSessionManager.ServerSessionManager.HasAttachedSessionForUser` | opcua/session/server_session_manager.cpp:524-532 | Says whether the user has an attached session |
| `ServerSessionManager.ServerSessionManager.CreateSession` | opcua/session/server_session_manager.cpp:101-154 | Follows the create step |
| `ServerSessionManager.ServerSessionManager.BeginActivation` | opcua/session/server_session_manager.cpp:156-257 | Follows activation up to the authenticator: refused, resumed, activated or waiting |
| `ServerSessionManager.ServerSessionManager.FinishActivation` | opcua/session/server_session_manager.cpp:258-332 | Follows activation after the authenticator has answered |
| `ServerSessionManager.ServerSessionManager.CloseSession` | opcua/session/server_session_manager.cpp:370-394 | Drops and reports the session, or answers that there is none |
| `ServerSessionManager.ServerSessionManager.DetachSession` | opcua/session/server_session_manager.cpp:396-407 | Marks the session detached |
| `RuntimeRuns.StepKeeps` | opcua/session/server_runtime.cpp:373-549 | Every step that overwrites no session object with subscriptions keeps the owner index exact, the sessions valid and the session objects in step with the activated tokens |
| `RuntimeRuns.StepExactly` | opcua/session/server_runtime.cpp:752-788 | A step keeps the index exact if and only if it is not a waiting activation that the manager lets in for a token whose session object holds subscriptions |
| `RuntimeRuns.IndexExactExactly` | opcua/session/server_runtime.cpp:342-549 | For every run of create, activate, close, expire, evict, create, delete and transfer subscription, publish and anything else a subscription does: the index is exact throughout if and only if no step overwrites such a session object |
| `RuntimeRuns.OrderlyKeeps` | opcua/session/server_runtime.cpp:752-788 | Runs in which no two first activations of one token overlap never do, and a waiting token has no session object |
| `RuntimeRuns.IndexAfterRun` | opcua/session/server_runtime.cpp:409-455 | After every run without overlapping first activations the index maps id to token exactly when that token's session holds the subscription, and the runtime has an object for exactly the activated tokens |
| `RuntimeRuns.FinishExactly` | opcua/session/server_runtime.cpp:752-788 | Finishing an activation keeps the index exact if and only if it fails, or the runtime has no object for the token yet or one without subscriptions |
| `RuntimeRuns.OverlapLosesSubscription` | opcua/session/server_runtime.cpp:773-784 | A run with two overlapping first activations after which the index has a subscription no session holds |
| `RuntimeRuns.OverlapEvictsItself` | opcua/session/server_session_manager.cpp:300-314 | A run with two overlapping first activations of a user limited to one session, the second of which deletes the session it activates |
| `RuntimeRuns.WaitingIsNobodys` | opcua/session/server_session_manager.cpp:300-306 | In runs without such overlaps a session whose activation waits is nobody's, so finishing an activation never evicts its own session |
| `RuntimeRuns.ResumedHasSession` | opcua/session/server_runtime.cpp:762-772 | A resumed token always has its session object |
| `RuntimeRuns.TransferExact` | opcua/session/server_runtime.cpp:491-549 | Whatever order the groups come in, a transfer gives the target every requested subscription that exists, changes no other owner and leaves every subscription as it was |
| `HeldSubscriptions.HeldAreRuns` | opcua/session/server_runtime.cpp:418-549 | In every run of a server, each subscription a session holds, however it was polled, acknowledged or transferred, is a run of the subscription that a step created under its id, with the parameters and at the time of that step |
| `HeldSubscriptions.HeldKeepsLedgers` | opcua/session/server_runtime.cpp:418-549 | So each of them has ledgers that account for its notifications, messages and grants |
| `HeldSubscriptions.HeldSessionsPoll` | opcua/session/server_runtime.cpp:462-484 | In runs that overwrite no session object, polling any session answers from a ready subscription or waits, exactly as long as a poll should |
| `HeldSubscriptions.BirthsExactly` | opcua/session/server_runtime.cpp:418-428 | An id is given out by one step of the run at most, and what the subscription was created with is what that step asked for |
| `HeldSubscriptions.HeldInOrder` | opcua/session/server_runtime.cpp:418-549 | Every held subscription keeps its messages in number order, as acknowledging relies on |
| `Ownership.SubscriptionLives` | opcua/session/server_runtime.cpp:342-549 | In every run that overwrites no session object a subscription is there exactly while it has been created, its owner has not deleted it and no session has ended while owning it |
| `Ownership.OwnerExactly` | opcua/session/server_runtime.cpp:418-549 | It belongs to the session it was created for or last transferred to, and no other session holds it |
| `Ownership.ManagerIsRun` | opcua/session/server_runtime.cpp:388-417 | The session manager of a server is in the state of a run of its own, so what holds of its runs holds of it |
| `Transfers.GroupAnswer` | opcua/session/server_runtime.cpp:541-546 | The answer at a place of the request is the one its group gives at the matching place |
| `Transfers.AnswersExact` | opcua/session/server_runtime.cpp:505-547 | While the index is exact, whatever order the groups come in, unknown ids are refused, own ones fine, and of several requests for one subscription only the first succeeds |
| `ServerRuntime.ServerRuntime.ForgetSession` | opcua/session/server_runtime.cpp:342-355 | Removes the session object and every index entry of it |
| `ServerRuntime.ServerRuntime.ForgetEach` | opcua/session/server_runtime.cpp:282-292 | Being told of dropped sessions one by one forgets them all |
| `ServerRuntime.ServerRuntime.CreateSession` | opcua/session/server_runtime.cpp:388-405 | Follows the create-session step |
| `ServerRuntime.ServerRuntime.CloseSession` | opcua/session/server_runtime.cpp:409-417 | Follows the close step |
| `ServerRuntime.ServerRuntime.BeginActivateSession` | opcua/session/server_runtime.cpp:752-788 | Follows the first part of an activation and answers as the manager does; a resumed session is found |
| `ServerRuntime.ServerRuntime.FinishActivateSession` | opcua/session/server_runtime.cpp:752-788 | Follows the second part |
| `ServerRuntime.ServerRuntime.CreateSubscription` | opcua/session/server_runtime.cpp:418-428 | Takes a fresh id, adds the subscription and indexes it |
| `ServerRuntime.ServerRuntime.DeleteSubscriptions` | opcua/session/server_runtime.cpp:443-455 | Drops the subscriptions and the index entries of those dropped |
| `ServerRuntime.ServerRuntime.TransferSubscriptions` | opcua/session/server_runtime.cpp:491-549 | In any state, for the order of groups taken, state and answers are those of moving the groups one after the other; while the index is exact they are the ones above |
| `ChannelRuns.RunKeeps` | opcua/client/client_channel.cpp:117-262 | In every run at most one request has the send turn and the flag says so, queued requests have a holder or a wake-up in flight, exactly one read loop runs while responses are pending and none otherwise, and request ids are never shared |
| `ChannelRuns.RenewalReadsAlone` | opcua/client/client_channel.cpp:141-158 | Throughout a run renewals are the only reader of the transport, if and only if no separate Receive asks during one for a response that has not come |
| `ChannelRuns.StepReaderExactly` | opcua/client/client_channel.cpp:141-158 | A single step brings a second reader into a renewal if and only if it is such a Receive |
| `ChannelRuns.CallsOnly` | opcua/client/client_channel.cpp:117-126 | In runs of calls only, a renewal never meets a read loop |
| `ChannelRuns.SplitUseReadsDuringRenewal` | opcua/client/client_channel.cpp:177-205 | A run with separate Send and Receive in which a loop reads during a renewal |
| `ChannelRuns.ResponsesMatch` | opcua/client/client_channel.cpp:177-205 | In every run a request is answered only with the body of a frame that carried its own id and handle, and no two requests share an id |
| `ChannelAnswers.AnsweredExactly` | opcua/client/client_channel.cpp:117-298 | In every run a request has the answer that a step of the run gave it and no other: its renewal or send failed; it asked and the first frame read with its id says so; or it waited, and a read failed or brought a frame with its id |
| `ChannelAnswers.ResponseReaches` | opcua/client/client_channel.cpp:264-281 | When a frame is read with the id and handle of a waiting request, the request has the body of that frame as its answer in every later state |
| `ChannelAnswers.BufferedReaches` | opcua/client/client_channel.cpp:177-186 | When a request asks for a response that has been read, it has the body of the first frame with its id as its answer in every later state, or a failure if that carries another handle |
| `ChannelAnswers.FailedExactly` | opcua/client/client_channel.cpp:141-298 | A request fails if and only if its renewal or send failed, a read failed while it waited, or the frame with its id carried another handle |
| `ChannelAnswers.FinishedExactly` | opcua/client/client_channel.cpp:177-205 | A request has returned to its caller if and only if it took a step of its own after which it had its answer |
| `ChannelAnswers.RequestsAreStarted` | opcua/client/client_channel.cpp:117-126 | The requests of a run are those started in it, with the handle they were started with |
| `ChannelTurns.TurnsExactly` | opcua/client/client_channel.cpp:141-158 | In every run a request is sent if and only if it found the transport free without a renewal to do, or its renewal succeeded; it renews if and only if it found the transport free with the token due while nobody waited for a response, until that ends |
| `ChannelFairness.WaiterOvertaken` | opcua/client/client_channel.cpp:240-262 | For every n there is a run in which one request is woken n times, each time finds the turn taken by a request started meanwhile, and waits again |
| `ChannelFairness.NobodyMisses` | opcua/client/client_channel.cpp:240-262 | In runs where no request starts while a woken one has yet to run, no woken request finds the turn taken |
| `ChannelFairness.PoliteBound` | opcua/client/client_channel.cpp:253-262 | In such runs a request still queued, p places from the front, has seen the turn given back at most p + 1 times |
| `ClientChannel.ClientChannel.WaitForSendTurn` | opcua/client/client_channel.cpp:240-251 | Takes the free turn or queues; with the turn, renews only when nothing is pending |
| `ClientChannel.ClientChannel.ReleaseSendTurn` | opcua/client/client_channel.cpp:253-262 | Frees the turn and wakes the first waiter |
| `ClientChannel.ClientChannel.OnRenewed` | opcua/client/client_channel.cpp:150-157 | After a renewal: sends, or gives the turn back and fails |
| `ClientChannel.ClientChannel.OnSent` | opcua/client/client_channel.cpp:159-175 | After a send: gives the turn back, and a call goes on to its response without a pause |
| `ClientChannel.ClientChannel.ReceiveResponse` | opcua/client/client_channel.cpp:177-194 | Takes a buffered response or becomes pending and sees to a read loop |
| `ClientChannel.ClientChannel.EnsureReadLoop` | opcua/client/client_channel.cpp:207-214 | Starts a loop unless one runs |
| `ClientChannel.ClientChannel.OnRead` | opcua/client/client_channel.cpp:216-238 | Delivers a frame or fails everything pending, and goes on reading exactly while something is pending |
| `ClientChannel.ClientChannel.DeliverResponse` | opcua/client/client_channel.cpp:264-289 | Answers the pending request with that id, or buffers the frame |
| `ClientChannel.ClientChannel.FailPendingResponses` | opcua/client/client_channel.cpp:291-298 | Answers every pending request with the failure |
| `ClientItems.NothingParkedOnceCreated` | opcua/client/client_subscription.cpp:153-165 | Once a successful creation has taken the parked items, nothing is parked in any later state |
| `ClientItems.ItemsCreatedOnce` | opcua/client/client_subscription.cpp:280-333 | In every run every accepted item is, exactly once, parked, about to be created, requested from the server, or given up; it is given up if and only if a step of the run removed it while parked or failed the creation it was parked for |
| `ClientItems.DroppedIsGivenUp` | opcua/client/client_subscription.cpp:146-163 | An item is counted as given up exactly when such a step of the run gave it up |
| `ClientItems.ClosedViewExactly` | opcua/client/client_subscription.cpp:393-421 | After the first close of a view, an item of it is live if and only if the close collected it and has not removed it yet, or it was added after the close and not removed since |
| `ClientItems.ClosedViewKeepsNothing` | opcua/client/client_subscription.cpp:393-421 | Once the close has run its removals the view has no item, if and only if every item added for it after the close has been removed |
| `ClientItems.ClosedViewLeaks` | opcua/client/client_subscription.cpp:280-333 | A run in which an item added to a closed view is created on the server and outlasts a second close |
| `ClientItems.GrantsAccounted` | opcua/client/client_subscription.cpp:248-264 | In every run every server id granted is held by a live record or has exactly one deletion under way or issued |
| `ClientItems.StepKeeps` | opcua/client/client_subscription.cpp:120-391 | Every step keeps the handshake, the places of items and the account of server ids |
| `ClientItems.RemoveAllItems` | opcua/client/client_subscription.cpp:363-391 | Removals touch no record but those named |
| `ClientHistory.HandshakeExactly` | opcua/client/client_subscription.cpp:120-165 | In every run the protocol object exists exactly if it was asked for and no creation has failed since; a creation is under way exactly if one was started without an object and not answered; the parked items are due exactly after a success, until they are taken |
| `ClientHistory.ItemStands` | opcua/client/client_subscription.cpp:190-264 | An item is parked, handed to the executor or requested from the server exactly since the step that put it there, until the one that takes it away |
| `ClientHistory.ServerIdExactly` | opcua/client/client_subscription.cpp:248-264 | The record of a live item has the id the server granted it, at most once, and none before |
| `ClientHistory.GrantsBalance` | opcua/client/client_subscription.cpp:248-391 | Counting the steps of a run: an item is requested at most once, and the grants of an id are those held, being deleted and deleted |
| `ClientSubscription.ClientSubscription.EnsureCreated` | opcua/client/client_subscription.cpp:120-131 | Starts a creation unless there is one or the subscription exists |
| `ClientSubscription.ClientSubscription.OnCreated` | opcua/client/client_subscription.cpp:146-163 | Success ends the parking; failure forgets the protocol object and what is parked |
| `ClientSubscription.ClientSubscription.FlushPendingSubscriptions` | opcua/client/client_subscription.cpp:190-202 | Hands every parked item to the executor, once |
| `ClientSubscription.ClientSubscription.AddItems` | opcua/client/client_subscription.cpp:280-333 | Takes a fresh local id for each item and parks it or hands it to the executor |
| `ClientSubscription.ClientSubscription.OnEndCreate` | opcua/client/client_subscription.cpp:248-264 | Records the server id, or deletes it when the record is gone |
| `ClientSubscription.ClientSubscription.RemoveItem` | opcua/client/client_subscription.cpp:363-391 | Drops the record and the parked item, and hands on a deletion if there is a server id |
| `ClientSubscription.ClientSubscription.RemoveItems` | opcua/client/client_subscription.cpp:335-361 | Follows the removal of exactly the view's own items, each once, and answers each id accordingly |
| `ClientSubscription.ClientSubscription.CollectItems` | opcua/client/client_subscription.cpp:405-417 | Lists the view's items, each once |
| `ClientSubscription.ClientSubscription.CloseView` | opcua/client/client_subscription.cpp:393-421 | Follows the close step and the removal of exactly the view's items; a second close changes nothing |
| `StructSorter.SortStructs` | tools/gen_ua_types.py:264-290 | Returns structures of the schema, one for each name, in which each follows all it refers to, or a cycle; without repeated names the result is a permutation, a cycle is returned exactly when the reference graph, arrays included, has one, and an ordered schema is returned as it is |
| `StructSorter.StructSorter.Visit` | tools/gen_ua_types.py:274-286 | Emits a structure after everything it refers to, or finds the cycle on its stack |
| `StructSorter.StructSorter.VisitDependencies` | tools/gen_ua_types.py:281-283 | Visits every reference that is a structure of the schema |
| `Schema.OrderedAcyclic` | tools/gen_ua_types.py:264-290 | A schema that can be ordered has no cycle |
| `Codec.OrderDescends` | tools/gen_ua_types.py:264-290 | In the sorter's order a structure refers only to earlier ones, which bounds the codec's recursion |
| `CodecTheorems.DecodeExactly` | tools/gen_ua_types.py:479-511 | For every schema in dependency order and every value of it, decoding the encoding followed by anything gives the value and exactly what followed, or fails; it fails if and only if an array of elements that take no bytes has more of them than bytes follow it |
| `CodecTheorems.ArrayDecodesExactly` | tools/gen_ua_types.py:479-511 | The same for one array: the guard on the count refuses it if and only if its elements take no bytes and are more than the bytes that follow |
| `CodecTheorems.RoundTrip` | tools/gen_ua_types.py:611-640 | If no array field has elements that take no bytes, every value round-trips |
| `CodecTheorems.SortedSchemaRoundTrip` | tools/gen_ua_types.py:611-640 | Both for a schema as the sorter orders it |
| `CodecTheorems.EncodesToNothing` | tools/gen_ua_types.py:611-625 | A value takes no bytes if and only if its type is a structure of such types |
| `CodecTheorems.EmptyStructureRefused` | tools/gen_ua_types.py:494-500 | A structure whose array field holds one structure without fields does not decode |
| `WireForm.LittleDigit` | opcua/transport/binary/codec_utils.cpp:225-252 | Byte i of an integer is its i-th digit to the base 256, the least significant first |
| `WireForm.IntReadExactly` | opcua/transport/binary/codec_utils.cpp:554-641 | An integer is read as the weighted sum of as many bytes as it is wide, if there are so many |
| `WireForm.DigitsRead` | opcua/transport/binary/codec_utils.cpp:225-252 | From exactly the digits of a number that number is read |
| `WireForm.CountReadExactly` | opcua/transport/binary/codec_utils.cpp:576-611 | A count is read from four bytes as a signed number, least significant byte first |
| `WireForm.LengthFirst` | tools/gen_ua_types.py:479-484 | The first four bytes of an array and of a byte string are the digits of its length, and a byte string follows as it is |
| `WireForm.ElementPlaced` | tools/gen_ua_types.py:479-484 | Behind the length each element stands behind those before it |
| `WireForm.FieldPlaced` | tools/gen_ua_types.py:611-625 | A structure is its fields in order, each behind those before it, and nothing else |
| `WireForm.Example` | tools/gen_ua_types.py:611-625 | The bytes of one structure with an integer and an array of byte strings |
| `CodecReads.ReadsExactly` | tools/gen_ua_types.py:486-640 | Of any bytes whatever the decoder accepts exactly those that start with a wire form of a value of the type, in which any negative count stands for an empty array or string; it gives that value and leaves exactly what follows |
| `CodecReads.WireRead` | tools/gen_ua_types.py:486-640 | Every wire form of a value, not only its encoding, is read as that value |
| `BinaryCodec.Encoder.PutArray` | tools/gen_ua_types.py:479-484 | Appends the count and the elements |
| `BinaryCodec.Encoder.PutStruct` | tools/gen_ua_types.py:611-625 | Appends the fields in order |
| `BinaryCodec.Encoder.PutInt` | opcua/transport/binary/codec_utils.cpp:225-252 | Appends the bytes of an integer, least significant first |
| `BinaryCodec.Decoder.TakeArray` | tools/gen_ua_types.py:486-511 | Reads what the array decoder gives, or fails as it does, with the guard on the count |
| `BinaryCodec.Decoder.TakeStruct` | tools/gen_ua_types.py:628-640 | Reads the fields in order, or fails with the first that fails |
| `BinaryCodec.Decoder.TakeBlob` | opcua/transport/binary/codec_utils.cpp:818-834 | Reads a byte string, a negative length as empty |
| `Endpoints.SecurityEquivalent` | opcua/client/client_security.cpp:128-146 | Says whether two endpoints agree on everything that matters to security |
| `Endpoints.InequivalentExactly` | opcua/client/client_security.cpp:128-146 | Two endpoints are inequivalent if and only if they differ in mode, policy, certificate, transport profile or the number of token policies, or at some place in the id, type or policy of a token policy |
| `Endpoints.EndpointSetsSecurityEquivalent` | opcua/client/client_security.cpp:148-188 | For non-empty lists, yes if and only if a bijection pairs equivalent endpoints, and if and only if both lists have the same keys equally often; an empty list is accepted |
| `Endpoints.PairsSameKeys` | opcua/client/client_security.cpp:148-188 | Lists that can be paired off have the same keys equally often |
| `Endpoints.OrderDoesNotMatter` | opcua/client/client_security.cpp:169-171 | Permuting a list does not change its keys, so not the answer |
| `EventIds.EncodeEventId` | opcua/events/event.cpp:8-14 | Writes the eight bytes of an id, most significant first |
| `EventIds.DecodeEventId` | opcua/events/event.cpp:16-25 | Reads an id from exactly eight bytes, nothing from any other length |
| `EventIds.EventIdsAreOrderedBytes` | opcua/events/event.cpp:8-25 | Ids and strings of eight bytes correspond one to one, and their orders agree |
| `EventFields.ProjectEventFields` | opcua/events/event_filter.cpp:135-203 | One field per path, in order, empty for an unknown path or no event |
| `EventFields.ReconstructEventFromFields` | opcua/events/event_filter.cpp:205-288 | Assigns the fields of fitting type one after the other |
| `EventFields.ProjectionRestores` | opcua/events/event_filter.cpp:135-288 | Over any list of paths, rebuilding a projection restores exactly the selected properties, as normalised, and leaves defaults elsewhere |
| `EventFields.NamesProject` | opcua/events/event_filter.cpp:135-203 | Which field of the event, and in which form, each of the fifteen names projects; any other name projects nothing |
| `EventFields.RebuildExactly` | opcua/events/event_filter.cpp:205-288 | Over any paths and any fields, each property is what the last field for it whose type fits gives, older peers' wider numbers included, and the default if there is none |
| `EventFields.NormalTwice` | opcua/events/event_filter.cpp:161-185 | The normalisation (16-bit severity, source name fallback) is idempotent |
| `EventFields.PropertiesDetermine` | opcua/events/event.h:46-99 | Events with the same properties are equal, so nothing is left out of the comparison |
| `EventFilters.ToUaEventFilter` | opcua/services/history_conversion.cpp:109-145 | Builds the select clauses and the where clause of a filter |
| `EventFilters.ToManagedEventFilter` | opcua/services/history_conversion.cpp:56-107 | Reads a where clause element by element, ignoring what it does not support |
| `EventFilters.WireExactly` | opcua/services/history_conversion.cpp:109-145 | The where clause is one type test for each type, one relation for each parent, in order, and one comparison for each acknowledgement bit |
| `EventFilters.ReadExactly` | opcua/services/history_conversion.cpp:56-107 | Whatever a where clause holds, what is read are the nodes its type tests and relations name, in order, and whether it compares the acknowledged state with yes and with no, in either operand order |
| `EventFilters.FilterRoundTrip` | opcua/services/history_conversion.cpp:56-145 | Going over the wire keeps both type lists and the two acknowledgement bits, and drops any other bit |

## Left out

- Counters (sequence numbers, handles, ids, tokens) are unbounded; only the lifetime product wraps.
- Time is in whole milliseconds; the deadband test and the sampling of values are a verdict passed in.
- Subscriptions inside a session, and sessions inside the runtime, are held by value; that the original shares them by pointer, and what a pointer kept across a suspension may dangle to, is not captured.
- Closing the backing subscription when a subscription is destroyed, and the read loop over it, are not modelled; its notifications and bind results arrive as steps.
- A connection's own token, and detaching when it closes, are reduced to the token passed with each request.
- The publish service's wait between polls (opcua/session/server_runtime.cpp:462-484) is not a method; its polls are.
- Signatures, certificates, password decryption and the authenticator are verdicts passed in.
- ServerSubscription.ServerSubscription.ModifyMonitoredItems: filter results are left out of the answers, as in CreateMonitoredItems.
- Per-view notification queues of the client (opcua/client/client_subscription.cpp:424-468) would only add first-in first-out queues.
- ClientItems.GrantsAccounted: speaks of server ids other than 0, which the original uses for "none"; whether a deletion succeeds on the server is not modelled.
- The client's failed creation drops what is parked although it was accepted; the model records this as given up and does not claim those items back.
- Client request plumbing, discovery, and the client's acknowledgements of publishes are not modelled.
- StructSorter.SortStructs: with repeated names, which the schema does not have, a cycle through a structure that is never visited goes unreported, so there the exactness is not claimed; names are numbered in their alphabetical order.
- Starvation.StarvesExactly: speaks of runs in which items report and publishes happen; failed binds and a failed backing subscription, which queue statuses, end them.
- KeepAlives.WaitsExactly: speaks of runs of polls and of the same quiet steps of the other subscriptions, at poll times that do not go back.
- Codec: built-in types are fixed-width integers and byte strings; the bit-packed built-ins (NodeId, Variant, DataValue, ...) and the JSON codec are not part of this model.
- EventFields: a node id is identified with its text form, and calendar time with a number.
- EventFilters: the encoding of operands inside extension objects is taken as lossless.
- Transports, the secure channel, URL helpers, logging, tracing and field-by-field converters are not modelled.
