# Verified model of the realtime service's protocols

The service keeps users of stores and visitors of their sites in touch over Socket.IO. Its difficult part is a set of
small concurrent protocols over two shared stores: Redis, which executes each Lua script atomically, and MongoDB, with
atomic single-document commands, unique indexes and optional transactions. This project models each protocol as a
state machine whose events are the synchronous segments between two awaits and the atomic commands, and proves
properties of all its runs. Where the source updates an object or a Redis value in place there is also a class whose
methods, with the source's loops, equal the steps of the machine. `dafny verify dfyconfig.toml` checks everything.

| file | protocol |
|---|---|
| `Machine.dfy`, `Redis.dfy` | runs of a partial step function; Redis cells with an expiry |
| `SyncCache.dfy`, `SyncCacheService.dfy` | the versioned initial-sync cache |
| `PresenceStore.dfy` | one store's expiring sorted set, shared by instances with a FIFO connection each |
| `PresenceTracking.dfy`, `PresenceService.dfy` | what one instance tracks: sockets, observers, generations, heartbeats |
| `SocketLifecycle.dfy`, `StoreSocket.dfy`, `InstancePresence.dfy` | a socket's bootstrap, disconnection and cleanup; all sockets of an instance over its tracking |
| `PublicationLease.dfy` | the receipt lease of publication results |
| `NotificationReceipt.dfy` | the receipt of a notification |
| `ConversationHead.dfy`, `UnreadCounters.dfy`, `IdempotentSend.dfy`, `Attendance.dfy` | messages of a conversation: head and status, counters, idempotency, the responsible attendant |
| `ChatVisibility.dfy`, `Encoding.dfy` | push against pull; room names and keys |
| `RateLimiter.dfy` | the sliding window in Redis and the fixed windows in memory |
| `KeysetPaging.dfy`, `ChatListing.dfy` | paging by id; the merged first page of a store's chats |
| `WorkTracker.dfy` | in-flight work and drain |

## What is assumed

- `randomUUID` and `ObjectId` give fresh values, and SHA-256 has no collisions. A version token is identified with the
  bump that made it, a claim id with the request that drew it. What the digests are fed with is proved injective in
  `Encoding`.
- An awaited promise resumes its continuations in the order they were attached, and queued jobs are taken first in,
  first out. In `SocketLifecycle` this order is part of the state, so that the bootstrap resumes before the cleanup is a
  theorem.
- Each instance sends its Redis commands over one connection in order, and they succeed. A failed heartbeat is an event
  of `PresenceTracking`; in `SyncCache` every Redis failure and every lost answer is one.
- Redis time does not run back. Clocks of requests are arbitrary.
- Freshness of the cache assumes that no load lasts as long as a version key. The assumption is tight, see below.
- Alternation of presence transitions assumes that members are refreshed before they expire, or, weaker, that nobody
  comes or goes unseen; the weaker condition is needed.
- Closing a conversation is an event of the environment, for nothing in this service closes one.

## Where a promise does not hold as it stands

Each of these is a lemma with a concrete run, beside the exact statement that does hold.

- A load as long as a version lifetime is served stale, for every ttl (`SlowLoadIsServedStale`).
- A heartbeat entry taken when its store had no generation number passes the fence after any number of changes
  (`UnnumberedEntryMayBeStale`). Entries with a number are safe.
- Two requests can hold the publication key at once whatever their clocks are, if a third one took over and released
  in between (`OverlapWithoutTakeover`). `OverlappingClaims` says what holds: 60 seconds on the same document.
- Without transactions the unread counter can end too high, when a reader overtakes an increment, and too low, when
  a close does; `QuiescentError` is the exact balance.
- Without transactions a send refused by a close is stored all the same; the head does not show it and no counter
  counts it (`CloseHidesTheLastMessage`, `RetryAfterRefusal`). A customer or an attendant that retries gets it back; a
  store user is refused again. A message is counted exactly when the send that stored it succeeded
  (`CountedIffUpdatedWhileOpen`).
- The expiry of a presence key silences an unregister that comes after it (`KeyExpiryOnlySilencesLateUnregisters`).
- An empty but present responsible lets every user of the store send (`EmptyResponsibleLetsAllSend`), and a responsible
  without a name is known to pull, not to push (`NamelessResponsibleLeaks`). `create_message` writes neither.
- The first page of a store's whole listing holds old unread messages too; a client that pages on from its oldest message
  misses the read ones after it (`PagingFromFirstPageIsComplete`, `OldUnreadHidesMessages`). With a peer or thread given
  it misses nothing.
- The parts that the cache hashes collide if ids contain zero bytes (`ZeroBytesCollide`).
- Notifications are delivered at least once, as documented, and not at most once (`BothMayEmit`).

## Model

| member | source | states |
|---|---|---|
| SyncCache.ReturnedValueIsFresh | src/services/sync_cache.ts:101-234 | In every run with prompt loads, whatever a call returns (hit, shared load, own load, fallback) comes from a loader that started after every preceding bump that concerns its subject: of the store's chat or notifications, of that user's notifications, or of that visitor's conversations |
| SyncCache.StepKeepsInv | src/services/sync_cache.ts:101-234 | Every segment and every script keeps the invariant that entries, flights and calls are consistent with the bumps of their scopes |
| SyncCache.MatchMeansFresh | src/services/sync_cache.ts:213-221 | If the versions a load started under still match less than a version lifetime later, none of its scopes was bumped since: an expired key cannot pass for `0` in time |
| SyncCache.HitIsFresh | src/services/sync_cache.ts:8-17 | An entry found under current versions postdates every bump of its scopes, because entries live a shorter time than versions |
| SyncCache.FlightIsFresh | src/services/sync_cache.ts:164-175 | So does the load that a coalesced call joins |
| SyncCache.WriteKeepsEntries | src/services/sync_cache.ts:177-200 | The conditional write never stores an entry that predates a bump it could not see |
| SyncCache.BumpIsRemembered | src/services/sync_cache.ts:213-234 | A bump is never forgotten by the history that freshness is measured against, even when its key expires |
| SyncCache.SlowLoadIsServedStale | src/services/sync_cache.ts:218-221 | The timing assumption is tight: for every ttl, a load as long as a version lifetime is served to a call begun after a bump |
| SyncCache.ConcernsAreListed | src/services/sync_cache.ts:55-80 | The version scopes read for a snapshot are exactly those whose invalidation concerns its store, user or visitor |
| SyncCache.CachedUntilDisturbed | src/services/sync_cache.ts:114-148 | A cached snapshot answers an uninterrupted call, without any load, until a concerning bump, a removal, a load of the same subject or an expiry |
| SyncCache.MissFillsTheCache | src/services/sync_cache.ts:164-204 | From every state an uninterrupted call that finds nothing cached and nothing in flight loads once, returns that value and leaves it cached |
| SyncCache.ThreeAttempts | src/services/sync_cache.ts:111-162 | In every run a call that found the cache up has made as many attempts as were spoiled by a version change, never a fourth, and runs its loader uncached only after three, or after Redis failed it |
| SyncCache.OvertakenLoad | src/services/sync_cache.ts:150-200 | A load overtaken by a bump stores nothing; its waiter tries again, or keeps the value if the answer of the script is lost |
| SyncCache.RedisFailureFallsBack | src/services/sync_cache.ts:107-148 | From every state a call for which the cache is down or Redis fails runs its own loader, returns its value and stores nothing |
| SyncCache.FailedWriteKeepsTheValue | src/services/sync_cache.ts:177-208 | A shared load whose write fails still gives its waiters the value, one whose loader rejects fails them, and neither stores anything |
| SyncCache.CorruptEntryIsAMiss | src/services/sync_cache.ts:134-143 | An entry that cannot be parsed leads on to a load, and is removed |
| SyncCache.NobodyGetsAnothersSnapshot | src/services/sync_cache.ts:101-234 | In every run, whatever a call returns was loaded by a call for the very same store, user and role, or visitor |
| SyncCacheService.Service.ReadAll | src/services/sync_cache.ts:114-121 | Reads each version, a missing one as `0` |
| SyncCacheService.Service.VersionsMatch | src/services/sync_cache.ts:10-15 | The loop of both scripts finds a mismatch exactly when there is one |
| SyncCacheService.Service.ReadStableScript | src/services/sync_cache.ts:8-17 | Answers the entry exactly when all versions match |
| SyncCacheService.Service.WriteStableScript | src/services/sync_cache.ts:19-29 | Stores the entry with its lifetime exactly when all versions match |
| SyncCacheService.Service.ReadStable | src/services/sync_cache.ts:123-148 | The segment around the conditional read is the machine step |
| SyncCacheService.Service.LoadVersioned | src/services/sync_cache.ts:164-204 | The first segment of a load joins the flight or starts one, as the machine step |
| SyncCacheService.Service.WriteStable | src/services/sync_cache.ts:177-200 | The end of a load is the machine step |
| SyncCacheService.Service.Attempt | src/services/sync_cache.ts:114-159 | One turn of the retry loop ends decided, or in a later attempt, with others interleaved at every await |
| SyncCacheService.Service.GetOrLoad | src/services/sync_cache.ts:101-162 | The retry loop under arbitrary interference returns only values started after every preceding bump that concerns the subject |
| PresenceStore.IdleInstanceHasNoGhosts | src/services/presence_service.ts:463-499 | In every run, once an instance has no queued command, Redis holds none of its sockets that it has unregistered, whatever heartbeats were in flight |
| PresenceStore.NoGhostsStays | src/services/presence_service.ts:127-200 | Every local segment and every command keeps what the queue will leave within the local sockets |
| PresenceStore.CommandEffect | src/services/presence_service.ts:27-78 | What a script does to the running instance's members, and that it only prunes those of others |
| PresenceStore.IdleInstanceIsExact | src/services/presence_service.ts:463-499 | With timely refreshes an idle instance's members are exactly its local sockets |
| PresenceStore.TransitionsAlternate | src/services/presence_service.ts:27-78 | With timely refreshes the transitions of all instances alternate in Redis order, and online minus offline is 1 exactly when the set is not empty |
| PresenceStore.CommandFlips | src/services/presence_service.ts:27-78 | A script reports a transition exactly when the set becomes empty or stops being so |
| PresenceStore.TransitionsAlternateUnlessSilent | src/services/presence_service.ts:27-78 | With no assumption about time the transitions alternate, and online minus offline is 1 exactly while somebody is live, as long as nobody comes or goes unseen by expiry or heartbeat |
| PresenceStore.SilentEmptyingBreaks | src/services/presence_service.ts:27-39 | The condition is needed: once everybody has gone unseen, any idle instance breaks the alternation with its next register |
| PresenceStore.SilentArrivalBreaks | src/services/presence_service.ts:41-55 | And once somebody has come unseen, his unregister does |
| PresenceStore.LocalTransitionsAlternate | src/services/presence_service.ts:127-232 | Without Redis the transitions alternate with no assumption |
| PresenceStore.ExpiryBreaksAlternation | src/services/presence_service.ts:27-39 | An expired member lets online be reported twice, so timely refreshes are needed |
| PresenceStore.KeyExpiryOnlySilencesLateUnregisters | src/services/presence_service.ts:27-78 | In every run the expiry of the whole key changes nothing about register and refresh and no resulting members; it changes the report of an unregister exactly when the key is gone and the member was still in it, and then no member was live |
| PresenceStore.LiveExactlyWhileLeased | src/services/presence_service.ts:27-78 | In every run a member is live exactly when a register or heartbeat that Redis ran less than a ttl ago named it and no unregister of it ran since |
| PresenceStore.TimelyRenewalsKeepOnline | src/services/presence_service.ts:57-78 | A member that a register or an executed heartbeat names at least once in every ttl, and that is not unregistered, is live throughout |
| PresenceStore.LocalIsRegistered | src/services/presence_service.ts:127-186 | An instance's local sockets are those that registered with it and have not unregistered since |
| PresenceStore.HeartbeatRenewsRegistered | src/services/presence_service.ts:463-499 | A heartbeat renews exactly the sockets that registered with its instance and have not unregistered since |
| PresenceTracking.ObserversAreCounted | src/services/presence_service.ts:291-339 | In every run each store's observer count is the number of observers watching it, with no zero entries |
| PresenceTracking.NumberedEntriesAreCurrent | src/services/presence_service.ts:508-518 | A heartbeat entry that carried a generation number is applied only if its store has seen no tracking change since, even after prune and re-add |
| PresenceTracking.CurrentEntriesApply | src/services/presence_service.ts:508-518 | For a store with local sockets or watchers a numbered entry is applied if and only if the tracking of the store has not changed since its snapshot |
| PresenceTracking.AppliedEntryReportsFlips | src/services/presence_service.ts:520-541 | An applied entry reports a transition exactly when the instance's view flips, and leaves the view equal to the answer |
| PresenceTracking.UnnumberedEntryMayBeStale | src/services/presence_service.ts:512-518 | An entry snapshotted without a number can be applied after changes: the fence needs the number |
| PresenceTracking.StepKeepsInv | src/services/presence_service.ts:291-560 | Every segment keeps counts, both socket maps, generations and pending entries consistent |
| PresenceTracking.StepEvolves | src/services/presence_service.ts:654-669 | Between two states a store's tracking is untouched or its generation is new; a pruned number is never reused |
| PresenceTracking.RetiredNumbersNeverReturn | src/services/presence_service.ts:654-669 | A generation number that a store has lost, by a change or by pruning, or never had, is never its own again, however often it is tracked anew |
| PresenceTracking.ChangeRetires | src/services/presence_service.ts:654-657 | A tracking change retires every number drawn before it |
| PresenceTracking.HeartbeatCoversEverybody | src/services/presence_service.ts:463-486 | In every run a heartbeat has exactly one entry for each store that is known online, watched or has a local socket, and for no other, each with exactly its sockets and its number |
| PresenceTracking.ObservingIsExact | src/services/presence_service.ts:291-327 | In every reachable state, store by store: who watches it afterwards, whether it is in the view (reported online stores enter, stores nobody watches any more and without sockets leave), and that its tracking changed once if the observer watches it or did |
| PresenceTracking.ClearingIsObservingNothing | src/services/presence_service.ts:329-339 | Clearing an observer is observing the empty list |
| PresenceTracking.ViewIsTheLastAnswer | src/services/presence_service.ts:520-541 | Apart from observing, a store is in the view exactly by the last answer about it: of register, unregister or an applied heartbeat entry |
| PresenceService.PresenceKey.RegisterScript | src/services/presence_service.ts:27-39 | The script in place equals its specification; the member is leased, and the transition is reported exactly if nobody was live before |
| PresenceService.PresenceKey.UnregisterScript | src/services/presence_service.ts:41-55 | The script in place equals its specification; the member is gone, and the transition is reported exactly if it was seen and nobody is left |
| PresenceService.PresenceKey.RefreshScript | src/services/presence_service.ts:57-78 | The refresh loop over its arguments gives each member a lease of now plus ttl, keeps the other live members' leases, drops the rest, and extends the key exactly if anybody is left |
| PresenceService.Service.RegisterLocally | src/services/presence_service.ts:127-136 | The synchronous part of register is the machine step |
| PresenceService.Service.UnregisterLocally | src/services/presence_service.ts:174-186 | The synchronous part of unregister is the machine step, and says whether the socket was there |
| PresenceService.Service.SetObservedPresence | src/services/presence_service.ts:291-327 | Its three loops in place are the machine step |
| PresenceService.Service.ClearObserver | src/services/presence_service.ts:329-339 | Its loop in place is the machine step |
| PresenceService.Service.RemoveStoreObserver | src/services/presence_service.ts:634-652 | The reference count and its clean-up at zero |
| PresenceService.Service.MembersByStore | src/services/presence_service.ts:466-477 | The stores covered are the authoritative, the observed and those with local sockets, each with exactly its sockets |
| PresenceService.Service.HeartbeatSend | src/services/presence_service.ts:479-486 | One entry for every authoritative, observed or locally connected store, each with exactly its local sockets and its number; equal to the machine step |
| PresenceService.Service.HeartbeatApply | src/services/presence_service.ts:511-543 | The fenced body of the loop is the machine step |
| SocketLifecycle.RegistersAreMatched | src/socket/handlers/store.ts:76-231 | In every interleaving of bootstrap, disconnect, failures and presence:sync at most one register and one unregister happen, in that order, and a finished cleanup has undone the register and the observing for good |
| SocketLifecycle.CleanupIsNeverStuck | src/socket/handlers/store.ts:762-791 | A disconnected or failed socket whose cleanup is not over always has a runnable job or an awaited answer |
| SocketLifecycle.ProgressIsBounded | src/socket/handlers/store.ts:762-791 | After a disconnect the number of further steps of bootstrap and cleanup is bounded by a weight of the state, in every run |
| SocketLifecycle.CleanupEnds | src/socket/handlers/store.ts:762-791 | Every run with a disconnected socket extends, by queued jobs and awaited answers alone, to one whose cleanup is over |
| SocketLifecycle.BootstrapSucceeds | src/socket/handlers/store.ts:133-325 | From every reachable state of a bootstrap under way and not disconnected, joins, answer, jobs and snapshots bring it to ready, registered once and not unregistered |
| SocketLifecycle.NothingElseFails | src/socket/handlers/store.ts:101-128 | A run without a disconnect and without an error never fails and never starts a cleanup |
| SocketLifecycle.DoomedIsNeverReady | src/socket/handlers/store.ts:224-325 | A socket that fails, or disconnects before it is ready, never becomes ready and never observes anybody |
| SocketLifecycle.SegmentKeepsInv | src/socket/handlers/store.ts:76-231 | Every segment keeps the order of the queued continuations: the bootstrap resumes before the cleanup |
| InstancePresence.NothingLeaks | src/socket/handlers/store.ts:762-791 | Once every store user's cleanup is over and every customer is disconnected, the tracking holds no socket, no watch list and no count |
| InstancePresence.LocalSocketsAreRegistered | src/socket/handlers/store.ts:224-231 | At every moment the local sockets of a store are its users between their register and their unregister |
| InstancePresence.WatchingWhatWasShown | src/socket/handlers/store.ts:724-751 | In every run whoever watches anything watches exactly the stores of the presence list last shown to it |
| InstancePresence.CustomerKeepsInv | src/socket/handlers/customer.ts:46-48 | A customer's observing and disconnecting keep the tracker's view of it right |
| InstancePresence.SocketKeepsInv | src/socket/handlers/store.ts:724-751 | A segment of a store user's socket moves the tracker's view of that socket, and of no other, as the segment says |
| StoreSocket.StoreSocketState.OnDisconnect | src/socket/handlers/store.ts:76-97 | The disconnect listener leaves a cleanup started or queued and keeps the invariant |
| StoreSocket.StoreSocketState.RegisterPresence | src/socket/handlers/store.ts:224-228 | The bootstrap registers exactly once and only if still connected, and otherwise leaves the error handler queued |
| StoreSocket.StoreSocketState.CleanupStorePresence | src/socket/handlers/store.ts:762-775 | Whoever calls first runs the cleanup up to its await; every later call changes nothing |
| StoreSocket.StoreSocketState.RunNextJob | src/socket/handlers/store.ts:101-128 | A resumed cleanup always unregisters the one register, a bootstrap resumed after a disconnect always queues the error handler, and the invariant is kept |
| StoreSocket.StoreSocketState.RecordObserved | src/socket/handlers/store.ts:737-744 | presence:sync records only for a connected socket whose cleanup has not begun |
| PublicationLease.PublishedIsAbsorbing | src/repositories/publication_result_repository.ts:268-303 | Until it expires, a published receipt never changes again |
| PublicationLease.OnePublisher | src/http/app.ts:289-303 | Between two requests that mark the receipt of a key it has expired: at most one answers suppressed false |
| PublicationLease.OnlyMarkersAnswer | src/http/app.ts:289-303 | Only a request whose mark took effect answers suppressed false |
| PublicationLease.ClaimIsLostOnlyLate | src/repositories/publication_result_repository.ts:245-265 | A claim ends only by its own mark or release, by expiry, or by a takeover whose clock is at least 60 seconds past the lock: no release removes another's claim |
| PublicationLease.OverlappingClaims | src/repositories/publication_result_repository.ts:205-266 | Two requests that both believe they hold the key: clocks 60 seconds apart in claim order on the same document; otherwise the earlier document expired or was released by a claimer 60 seconds past the earlier one |
| PublicationLease.OverlapWithoutTakeover | src/repositories/publication_result_repository.ts:205-266 | On different documents the clocks of the two say nothing: whatever they are, a third request's takeover and release lets both hold |
| PublicationLease.AnswersFollowAnEmission | src/http/app.ts:276-303 | Every 202 given for a claim comes after an emission of that result, by its fingerprint: its own, or for a suppressed duplicate that of some request for the same result |
| PublicationLease.UndisturbedRequest | src/http/app.ts:215-317 | From every reachable state a request that nobody disturbs publishes its result if the key is free or its lock is 60 seconds old, and otherwise answers conflict, duplicate or in flight, as the receipt says, and changes nothing |
| PublicationLease.LostClaimBlocksAMinute | src/repositories/publication_result_repository.ts:205-266 | A claim whose answer is lost blocks the key for the same result until exactly 60 seconds after its clock |
| PublicationLease.StepKeepsInv | src/repositories/publication_result_repository.ts:205-303 | Every command and handler step keeps receipt, lineage of claims and requests consistent |
| PublicationLease.PublicationResultRepository.Claim | src/repositories/publication_result_repository.ts:205-266 | Undisturbed, a claim succeeds exactly when the key is free or its lock is 60 seconds old, and otherwise says why and changes nothing |
| ConversationHead.OrderDoesNotMatter | src/repositories/chat_repository.ts:1167-1203 | Updates of distinct messages leave the same document in every order |
| ConversationHead.HeadIsGreatest | src/repositories/chat_repository.ts:1167-1203 | The head is the greatest id seen with that message's details, and the status is open exactly if it was or some update opened it |
| ConversationHead.SameMessagesSameThread | src/repositories/ecommerce_chat_repository.ts:763-801 | Two finished races over the same messages leave the same document |
| ConversationHead.HeadAgrees | src/repositories/chat_repository.ts:282-308 | The head is the greatest message of the thread exactly when no greater message is pending or orphaned by a close; with transactions always |
| ConversationHead.UndisturbedMessage | src/repositories/chat_repository.ts:260-308 | A message that nothing disturbs reaches an open conversation: it is stored, and is the head exactly if it is greater than the last one |
| ConversationHead.CloseHidesTheLastMessage | src/repositories/chat_repository.ts:282-307 | Without transactions a close between insert and update leaves a message that the head does not show |
| ConversationHead.StatusOnlyMovesForward | src/repositories/chat_repository.ts:1078-1099 | The status never moves back, and a closed conversation never changes |
| ConversationHead.OpeningLasts | src/repositories/chat_repository.ts:1070-1099 | Once a close or an opening message has ended the wait, the conversation never waits again |
| ConversationHead.WaitsUntilOpened | src/repositories/chat_repository.ts:1060-1099 | In every run the status has left waiting if and only if the conversation was closed, or a message committed or whose update ran is from the target store or was sent with attendants on both sides |
| ConversationHead.MessagesWereSent | src/repositories/chat_repository.ts:260-308 | Every stored message holds what the send that stored it said, its time, and opens exactly by who sent it |
| ConversationHead.UpdatedAtIsLatest | src/repositories/chat_repository.ts:1190-1202 | The last change of the document is the latest time of its updates, or what it was |
| ConversationHead.TargetReplyEndsWaiting | src/repositories/chat_repository.ts:1070-1076 | After a committed message of the target store the conversation is not waiting |
| UnreadCounters.TransactionsCountExactly | src/repositories/ecommerce_chat_repository.ts:664-720 | With transactions the counter is the number of unread messages in every state, and the clamp never fires |
| UnreadCounters.StepKeepsInv | src/repositories/ecommerce_chat_repository.ts:201-229 | The exact account: counter plus pending, refused and lost increments equals unread plus owed, clamped and forgotten subtractions |
| UnreadCounters.QuiescentError | src/repositories/ecommerce_chat_repository.ts:664-720 | Once nothing is under way the counter is off by exactly what was clamped or forgotten less what was refused or lost |
| UnreadCounters.NeverUnderReports | src/repositories/ecommerce_chat_repository.ts:303-339 | While not closed and without a crash, counter plus pending increments is at least unread plus pending decrements |
| UnreadCounters.ClampNeedsALateIncrement | src/repositories/ecommerce_chat_repository.ts:698-716 | The clamp fires only if an increment is still pending, was refused or was lost |
| UnreadCounters.ReadBeforeIncrementOverReports | src/repositories/ecommerce_chat_repository.ts:201-229 | Without transactions a read between insert and increment leaves the counter one too high |
| UnreadCounters.CloseBeforeIncrementUnderReports | src/repositories/ecommerce_chat_repository.ts:201-229 | Without transactions a close there leaves it one too low |
| UnreadCounters.CrashedSendUnderReports | src/repositories/ecommerce_chat_repository.ts:201-229 | So does a crash between insert and increment |
| UnreadCounters.CrashedReadOverReports | src/repositories/ecommerce_chat_repository.ts:685-716 | A crash between marking and subtracting leaves it one too high |
| UnreadCounters.UnreadIsStoredAndNotRead | src/repositories/ecommerce_chat_repository.ts:664-695 | In every run the unread messages are exactly those stored by a committed send or an insert and not marked since |
| UnreadCounters.ErrorsAreEvents | src/repositories/ecommerce_chat_repository.ts:201-229 | The lost and refused increments of the account are the senders' crashes and the increments after a close |
| UnreadCounters.TransactionsAreWhole | src/repositories/ecommerce_chat_repository.ts:664-720 | With transactions, in every reachable state, a send adds one unread message and one to the counter unless the conversation was closed, and a read leaves none |
| UnreadCounters.EcommerceConversation.CreateMessage | src/repositories/ecommerce_chat_repository.ts:201-229 | A committed send keeps both counters equal to the unread messages of the other side |
| UnreadCounters.EcommerceConversation.MarkRead | src/repositories/ecommerce_chat_repository.ts:664-720 | A committed read marks all messages of the other side, reports their number and keeps both counters exact |
| UnreadCounters.EcommerceConversation.UpdateMany | src/repositories/ecommerce_chat_repository.ts:685-695 | Marks every unread message of a side and counts them |
| IdempotentSend.OneMessagePerIdentity | src/repositories/ecommerce_chat_repository.ts:149-245 | However sends race and retry, at most one message exists per sender and client message id, legacy keys included |
| IdempotentSend.SuccessesAgree | src/repositories/chat_repository.ts:205-325 | All successful sends of an identity return the same message, and it has what each of them asked for |
| IdempotentSend.DifferentContentsConflict | src/repositories/ecommerce_chat_repository.ts:832-865 | Two requests with different contents under one identity cannot both succeed |
| IdempotentSend.UndisturbedSend | src/repositories/ecommerce_chat_repository.ts:149-245 | From every reachable state an undisturbed send returns the message of its identity if it asks for that one and conflicts otherwise; if there is none it stores one, counted once, or is refused by a close |
| IdempotentSend.LoserGetsTheWinnersMessage | src/repositories/ecommerce_chat_repository.ts:231-245 | A send that loses the race for the unique index returns the winner's message if it asked for the same, and conflicts otherwise |
| IdempotentSend.OldMessagesAreReturned | src/repositories/ecommerce_chat_repository.ts:163-176 | A message stored under the older colon-separated key of its sender is returned to a repeated send |
| IdempotentSend.CountedOnce | src/repositories/ecommerce_chat_repository.ts:201-229 | In every run a message is counted at most once; with transactions every message sent is counted exactly once |
| IdempotentSend.CountedIffUpdatedWhileOpen | src/repositories/ecommerce_chat_repository.ts:201-229 | Without transactions a stored message is counted once if and only if the update of the send that stored it ran while the conversation was open, which is if and only if that send itself succeeded; otherwise never |
| IdempotentSend.OpenSendIsCounted | src/repositories/ecommerce_chat_repository.ts:201-229 | So a send whose conversation stays open and that meets no error is counted once |
| IdempotentSend.RetryAfterRefusal | src/repositories/ecommerce_chat_repository.ts:226-245 | Without transactions a send refused because of a close is stored; a retry by a customer or an attendant returns it, never counted, and a retry by a store user is refused |
| IdempotentSend.ClosedStoreSendsAreRefused | src/repositories/ecommerce_chat_repository.ts:247-254 | Once a conversation is closed, every later send by a store user is refused, stored message or not |
| IdempotentSend.InsertKeepsInv | src/db/mongo.ts:124-129 | An insert under the unique index keeps one message per identity |
| Attendance.OneAttendantWins | src/repositories/chat_repository.ts:713-765 | Every message inserted on a side, by any number of racing senders, with or without transactions, is from the side's one responsible |
| Attendance.ResponsibleIsForever | src/repositories/chat_repository.ts:746-754 | Who becomes responsible stays so |
| Attendance.UndisturbedSend | src/repositories/chat_repository.ts:713-765 | From every state an undisturbed send succeeds if and only if the side is open and its user is the responsible or there is none, and then he is the responsible |
| Attendance.NobodySendsAfterClose | src/repositories/chat_repository.ts:282-308 | After a close no send succeeds, and only a sender that was about to insert can still leave a message |
| Attendance.EmptyResponsibleLetsAllSend | src/repositories/chat_repository.ts:1101-1109 | An empty responsible, the one malformed state, lets any two users both send |
| Attendance.ThreadSide.AssignIfMissing | src/repositories/chat_repository.ts:713-765 | Undisturbed, it assigns exactly a missing responsible of an open thread, and refuses exactly the others |
| ChatVisibility.PushAgreesWithPull | src/socket/realtime_gateway.ts:134-148 | For a well-formed thread a push reaches any user, of a participant store or not, exactly when the thread is visible to that user or the user is the sender |
| ChatVisibility.ReadersAreParticipants | src/repositories/chat_repository.ts:1120-1145 | Only users of the two stores may read a thread: the masters, and the sellers unless their store attends alone and another user is the responsible |
| ChatVisibility.FilterAgrees | src/repositories/chat_repository.ts:852-874 | The database filter selects exactly the threads that the predicate shows to a seller |
| ChatVisibility.FoundResponsible | src/repositories/chat_repository.ts:1038-1058 | The responsible that a push finds for a store is the one that its side names, if the mode is enabled |
| ChatVisibility.NamelessResponsibleLeaks | src/socket/realtime_gateway.ts:234-248 | On either side, a responsible not wholly recorded is ignored by push but not by pull: every other seller of the store is reached, sender or not, and may not read |
| ChatVisibility.RoomSet.AddChatVisibilityRooms | src/socket/realtime_gateway.ts:234-248 | The loop adds exactly the rooms of the store that may see the thread |
| ChatVisibility.PublishChatMessage | src/socket/realtime_gateway.ts:134-148 | The filled room set reaches exactly the users that may read, and the sender |
| RateLimiter.AtMostLimit | src/services/customer_rate_limiter.ts:18-36 | For nondecreasing Redis times every interval (t - window, t] has at most limit grants |
| RateLimiter.RetryIsExact | src/services/customer_rate_limiter.ts:25-32 | After a denial, with nothing granted meanwhile, a request is granted if and only if it waits at least the retry time |
| RateLimiter.RetrySecondsAreLeast | src/services/customer_rate_limiter.ts:67-71 | The whole seconds told to the customer are the least that suffice |
| RateLimiter.SlidingWindow.Consume | src/services/customer_rate_limiter.ts:18-36 | The script on the pruned and expiring set grants exactly what the list of all grants says |
| RateLimiter.SlidingWindow.Prune | src/services/customer_rate_limiter.ts:23-23 | Leaves exactly the grants that still count |
| RateLimiter.SeenIsRecent | src/services/customer_rate_limiter.ts:33-34 | Key expiry never changes an outcome: a key expires only when nothing in it counts |
| RateLimiter.TrimRemovesOne | src/services/customer_rate_limiter.ts:122-146 | One scope too many costs exactly one: the first over among the 1000 oldest, or the oldest |
| RateLimiter.NewestStays | src/services/customer_rate_limiter.ts:110-113 | The scope that was just served is never evicted |
| RateLimiter.LocalLimiter.ConsumeLocal | src/services/customer_rate_limiter.ts:93-120 | A scope without a running window gets one of the full length and a grant; otherwise the request is granted exactly while the window has room; grants are counted, the scope and the size bound kept, and a denial tells the whole seconds until the reset |
| RateLimiter.AtMostLimitPerWindow | src/services/customer_rate_limiter.ts:93-146 | Over every run of calls, from the request that gives a scope its window until it resets, one window length later, or is evicted at most limit requests are granted, and one is denied only after that many |
| RateLimiter.LocalLimiter.TrimLocalWindows | src/services/customer_rate_limiter.ts:122-146 | Its two loops in place do what the specification says |
| RateLimiter.LocalLimiter.InspectOldest | src/services/customer_rate_limiter.ts:128-137 | The inspecting loop, with its budget of 1000 |
| RateLimiter.LocalLimiter.EvictOldest | src/services/customer_rate_limiter.ts:139-145 | The evicting loop |
| NotificationReceipt.ReceiptFollowsEmission | src/http/app.ts:168-176 | A stored receipt implies an earlier emission of that very notification |
| NotificationReceipt.AcceptedFollowsEmission | src/http/app.ts:162-185 | Every 202 implies an earlier emission of the notification in it, its own unless suppressed |
| NotificationReceipt.NoEmissionAfterReceipt | src/http/app.ts:165-168 | No request that starts after the receipt emits again |
| NotificationReceipt.RetrySucceeds | src/repositories/notification_repository.ts:91-173 | Wherever earlier attempts failed, an undisturbed retry ends accepted with its contents stored and a receipt, having published unless there was a receipt; with other contents it is refused and changes nothing |
| NotificationReceipt.LeftAloneConcludes | src/repositories/notification_repository.ts:113-173 | However far a request has come in whatever race, also past a duplicate key, left alone it ends accepted if the stored notification is the one it asked for, and otherwise refused |
| NotificationReceipt.AnswersHaveTheContents | src/repositories/notification_repository.ts:91-150 | In every race a request publishes and is answered only notifications with the contents it asked for |
| NotificationReceipt.LostAnswersAreRecovered | src/http/app.ts:158-187 | After a lost answer of the insert or of the receipt a retry succeeds, and in the second case does not publish again |
| NotificationReceipt.BothMayEmit | src/http/app.ts:168-176 | Delivery is not at most once: racing requests can both emit |
| KeysetPaging.PagingBackIsComplete | src/repositories/notification_repository.ts:175-225 | Following the oldest id while there is more ends, and the joined pages are the ascending list of what is visible |
| KeysetPaging.PagingForwardIsComplete | src/repositories/notification_repository.ts:189-225 | The after cursor does the same for the suffix |
| KeysetPaging.NothingIsMissed | src/repositories/notification_repository.ts:175-225 | Exactly the notifications of the store that are for everybody or for the user, unread if asked for, are seen, each once, in order |
| KeysetPaging.NothingNewIsMissed | src/repositories/notification_repository.ts:189-225 | With the after cursor exactly those that are newer than it |
| KeysetPaging.PageIsSuffix | src/repositories/notification_repository.ts:202-211 | A page is the newest part of what is in range, and says whether anything older is left |
| ChatListing.ListFirst | src/repositories/chat_repository.ts:372-397 | The first page is ascending and holds exactly the newest messages and, in the listing of the whole store only, all unread ones, each once |
| ChatListing.MergeById | src/repositories/chat_repository.ts:1205-1214 | The filled map lists one message an id, the last one given, in ascending order |
| ChatListing.WalkBackIsComplete | src/repositories/chat_repository.ts:357-370 | Paging back from a cursor brings every older message, in order |
| ChatListing.PageIsNewestOlder | src/repositories/chat_repository.ts:357-370 | A page has at most limit messages, all older than the cursor, skips none, and says whether it left any |
| ChatListing.PagingFromFirstPageIsComplete | src/repositories/chat_repository.ts:357-397 | Paging back from the oldest message of the first page brings every message if and only if a peer or thread is given, or among the messages too old for the page no read one is newer than an unread one |
| ChatListing.OldUnreadHidesMessages | src/repositories/chat_repository.ts:372-397 | Of an old unread and a later read message the read one is lost in the listing of the whole store, and in no other |
| WorkTracker.CountsAreExact | src/socket/handlers/shared.ts:63-113 | A socket's count is its accepted events whose finally has not run, never above the maximum, and unfinished work is in the active set |
| WorkTracker.DrainReturnsEmpty | src/socket/handlers/shared.ts:150-156 | When drain returns, nothing is under way |
| WorkTracker.NoEventAfterDrain | src/socket/handlers/shared.ts:69-74 | From the start of a drain on no event is accepted |
| WorkTracker.AcceptedBelowTheMaximum | src/socket/handlers/shared.ts:63-93 | In every run an event is accepted if and only if no drain has begun and fewer than the maximum of its socket's events are under way |
| WorkTracker.DrainEnds | src/socket/handlers/shared.ts:150-168 | Every run with a waiting drain extends, by work ending and being forgotten and by the loop going round, to one in which the drain has returned and nothing is under way |
| WorkTracker.SocketWorkTracker.RunEvent | src/socket/handlers/shared.ts:63-113 | Accepts exactly while accepting and below the maximum of the socket; equal to the machine step |
| WorkTracker.SocketWorkTracker.FinishEvent | src/socket/handlers/shared.ts:103-110 | The finally of an event is the machine step |
| WorkTracker.SocketWorkTracker.StartDraining | src/socket/handlers/shared.ts:150-160 | The first segment of drain is the machine step |
| Encoding.Base64RoundTrip | src/socket/realtime_gateway.ts:363-365 | Any bytes decode back from their base64url form (section 5 of RFC 4648), which has no colon |
| Encoding.RoomsAreDistinct | src/socket/realtime_gateway.ts:363-365 | Room names of different kinds or parts differ |
| Encoding.RoomFields | src/socket/realtime_gateway.ts:363-365 | A room name decodes to its kind and parts |
| Encoding.PrefixedRoundTrip | src/utils/compound_key.ts:6-12 | The length-prefixed preimage parses back to the same parts, for lengths under 2^32 |
| Encoding.BuildCompoundKey | src/utils/compound_key.ts:3-15 | The hashing loop feeds a parseable preimage, and refuses exactly the parts whose length does not fit |
| Encoding.CompoundKeysAreDistinct | src/utils/compound_key.ts:14-14 | With a collision-free digest, keys of different namespaces or parts differ |
| Encoding.TerminatedRoundTrip | src/services/sync_cache.ts:278-285 | Zero-terminated parts can be told apart exactly when no part contains a zero byte |
| Encoding.ZeroBytesCollide | src/services/sync_cache.ts:278-285 | With zero bytes even lists of the same length collide |

## Left out

- Socket.IO, Express, zod, JWT, pino, the drivers of MongoDB and Redis: only the atomic commands issued and the unique indexes appear.
- `src/index.ts`, `src/redis/runtime.ts`, `src/socket/server.ts`, `src/socket/auth.ts`, configuration and logging: wiring, timers and I/O.
- `resolve`, `build_publication_result`, the sanitizing helpers, serializers, snapshots, contact and identity synchronization, marketplace reads: single queries or field copying, with only easy properties.
- `last_seen_at`: the time a store was last seen, its cache and its persistence, in presence scripts and service.
- `close` of the presence service and Redis commands that fail and are retried within presence; the service relies on expiry there.
- Registration and unregistration of a socket id that is used by two stores: an id belongs to one socket.
- The time between the entries of one heartbeat is arbitrary in the model; the source only waits there when it reports a transition, so it has fewer interleavings.
- Pending increments, decrements and head updates of a conversation as one machine: `ConversationHead` and `UnreadCounters` are separate machines over disjoint fields of the same document.
- Members of one conversation's two counters: `UnreadCounters.State` is the machine of one side; both sides together appear, with transactions, in `EcommerceConversation`.
- NumberedEntriesAreCurrent: stated for entries that carried a generation number, because without one it is false (`UnnumberedEntryMayBeStale`).
- TransitionsAlternate: assumes timely refreshes, because with an expired member it is false (`ExpiryBreaksAlternation`); `TransitionsAlternateUnlessSilent` needs less.
- `updated_at` as a clock: assignments and contact changes overwrite it directly; only its order independence under message updates is proved.
- Transfers of a responsible by other systems, and stores that switch single-attendant mode off while sends race.
- Ids with surrounding blanks: the settings are looked up trimmed and filtered untrimmed; the visibility model takes trimmed ids.
- UTF-8: parts are byte sequences, so strings with unpaired surrogates, which encode alike, are outside the model.
- Deletion of entries by `trim_local_windows` while the map is iterated follows the insertion order of `Map`; a scope is a hash and never empty, so the guard against an empty one is not modelled.
- `list_messages` of the e-commerce repository and the `after` cursor of the chat one: the same selection as `list_notifications` with another query; `merge_chat_threads_by_id` is the same merge in another order.
- The methods of `PublicationResultRepository` are stated without interference; their interleavings are in the machine of the same module.
- `drain` returns if background work stops arriving; that it stops is not modelled.
- The second read of a thread inside `create_message` without transactions: it directly follows the first and refuses nothing that the update could not refuse.
- What `list` answers while a presence key is expired but its members are pruned at an earlier time.
