# wzap: verified models

wzap is a single-replica WhatsApp gateway. What it promises rests on a number of small protocols
over rows, maps and locks, with workers that crash, calls that fail before or after they took
effect, redeliveries and interleavings. This project models those protocols in Dafny and proves
what they keep in every run. `dafny verify dfyconfig.toml` checks all of it.

The modules follow the program's components.

- **Outbound queue** (`MessageQueue`, `Outbox`, `OutboxSharing`, `InstanceLock`): the row
  transitions, the workers with their retries and recovery, and the reference-counted lock per
  instance. The Mark updates have no status guard: two workers hold one message exactly when a
  recovery took the row of a live copy and it was claimed again before that copy was done. Copies
  younger than the recovery threshold rule that out, the bound on sends needs no such hypothesis,
  and a run shows what happens without it.
- **Mirror into Chatwoot** (`Mirror`, `ConnectionNotices`): deliveries in any order and number,
  faults before and after each remote effect, restarts; who pays for each duplicate, and exactly
  when a redelivery makes one and a notice is posted again.
- **Idempotency keys** (`Idempotency`, `IdempotencyEscape`, `Fingerprint`): Acquire split into its
  three statements, exactly how a request gets past them, and the bytes the multipart fingerprint
  feeds to its hash.
- **Sessions** (`Reconnect`): transitions under the lock whose policy runs after it is dropped.
- **Conversation resolution** (`SenderLock`, `Conversations`): token locks with a TTL, a cache that
  is checked outside the lock, convergence of concurrent callers.
- **Event outbox** (`Relay`): claim, publish, mark, cleanup; nothing is lost, and exactly when the
  relay drains.
- **History** (`Dedup`, `HistorySync`, `Import`, `ImportDatabase`): the accumulator against the
  meaning of its feed and its snapshots against whatever comes later, and the chunked importer
  against one line that says what has to go in.
- **Smaller members**: `Markdown` and `MarkdownRoundTrip` (the converters undo each other exactly
  when no plain text can pass for a placeholder), `BoundedFile` (the media buffer against a plain
  file), `JidResolver` (the phone caches against the uncached lookup), `RateLimit` (the fixed-window
  limiter), `Text` (decimal rendering, trimming and sorting), `Wrappers` (what several share).

Objects whose methods change fields are classes here; each method is proved against a function of
the old state, and the theorems over runs use the same functions as the steps of a state machine.
What these functions have to do is stated without them as well, on the methods or in lemmas beside
them: which rows change and how, what is answered when, with the numbers written out.
Clocks are integers, identifiers natural numbers or strings, and every call outside the program is
a parameter that says how it went.

## Where code, comments and expectations part

- The comment on `storeCorrelation` (`internal/chatwoot/mirror/worker.go:1097-1099`) rules out a
  duplicate after a failed put and a failed read. It is possible when the database recovers before
  the redelivery: `Mirror.RecoveredDatabaseDuplicates`. `Mirror.RedeliveryDuplicatesExactly` is the
  exact condition, and `Mirror.ExtraCopiesAreCharged` the form that always holds.
- The throttle of identical notices does not hold across a post whose reply is lost, nor across a
  restart: `ConnectionNotices.LostReplyReposts` and `RestartReposts`, with the exact condition in
  `ConnectionNotices.RepostsExactly`.
- The round trip of the markdown converters fails for texts such as `*a* *b*B0*c*`, where plain text
  reads like a placeholder label; `MarkdownRoundTrip.RoundTripsExactlyWhenApart` is the exact
  condition.
- The limiter reads its clock before it takes its lock, so served calls can carry readings out of
  order, and then more than twice the limit can pass: 7 requests under limit 3 in
  `RateLimit.StaleReadingsBreakBound`. `RateLimit.PeakIsExact` is the exact maximum for every limit,
  window and lateness, and `RateLimit.KeepsTwiceTheLimitExactly` says for which three numbers twice
  the limit is kept.
- A batch of undecodable rows at the head of the event outbox starves everything behind it:
  `Relay.DrainsExactlyWhenReachable`.
- A request can run its handler unprotected with no failing statement at all, in two ways: the
  record that beat its insert is released, or expires, before its select
  (`IdempotencyEscape.ReleasedRecordUnprotects`, `IdempotencyEscape.ExpiredRecordUnprotects`).
  `IdempotencyEscape.UnprotectedExactly` says for every run that there is no other way.
- A NUL lets two different sends share a fingerprint, in the name of a field
  (`Fingerprint.NulInNameCollides`) as in the name, the file name or the content type of a file
  (`Fingerprint.NulInFileCollides`); without NULs in names it is exact.
- Within its capacity the media buffer re-exposes old bytes after a shrink:
  `BoundedFile.StaleByteComesBack`, with the exact condition in `BoundedFile.RunAgreesExactly`.
- The import's count falls short of the table's growth when an insert commits and its reply is
  lost: `ImportDatabase.LostReplyUndercounts`, with the exact conditions in
  `ImportDatabase.CountIsExactUnlessLost` and `ImportDatabase.UndercountsExactly`.

## Model

| member | source | states |
|---|---|---|
| RateLimit.ChatwootRateLimiter.constructor | internal/httpapi/chatwoot_ratelimit.go:28-33 | starts with an empty table; a window that is not positive becomes one minute |
| RateLimit.ChatwootRateLimiter.Allow | internal/httpapi/chatwoot_ratelimit.go:37-54 | the answer and the whole new table are those of the specification `Consume`, also with a limit of zero, which lets everything through |
| RateLimit.WindowBudget | internal/httpapi/chatwoot_ratelimit.go:40-53 | an open window admits exactly the smaller of what is left of its limit and what arrives in it, whatever other instances do |
| RateLimit.IntervalBound | internal/httpapi/chatwoot_ratelimit.go:37-54 | from any table, with readings served at most `late` behind the newest one, what a window-long interval can still admit for an instance |
| RateLimit.LateBurstBound | internal/httpapi/chatwoot_ratelimit.go:37-54 | in every run whose readings are served at most `late` behind the newest one, any half-open interval of one window admits at most the peak, `limit - 1` requests for each of `(late + 3 * window - 2) / window` windows and one more |
| RateLimit.PeakRunAdmits | internal/httpapi/chatwoot_ratelimit.go:37-54 | a run that admits exactly the peak, for every limit, window and lateness |
| RateLimit.PeakRunIsLate | internal/httpapi/chatwoot_ratelimit.go:37-54 | and whose readings are served no more than `late` late |
| RateLimit.PeakIsExact | internal/httpapi/chatwoot_ratelimit.go:37-54 | so all runs keep within a number if and only if the peak does |
| RateLimit.KeepsTwiceTheLimitExactly | internal/httpapi/chatwoot_ratelimit.go:37-54 | all runs keep within twice the limit if and only if the windows beyond two, times `limit - 1`, are at most 1 |
| RateLimit.KeepsTwiceWhenWindowsLate | internal/httpapi/chatwoot_ratelimit.go:37-54 | with readings at most k windows late, and windows of two ticks or more, if and only if `k * (limit - 1) <= 1` |
| RateLimit.BurstBound | internal/httpapi/chatwoot_ratelimit.go:37-54 | so under a clock that never goes back it admits at most `2 * limit - 1` |
| RateLimit.BurstIsTight | internal/httpapi/chatwoot_ratelimit.go:37-54 | for every limit, and every window of two ticks or more, a run in the order of its clock reaches the bound of `BurstBound` |
| RateLimit.StaleReadingsBreakBound | internal/httpapi/chatwoot_ratelimit.go:37-43 | the clock is read before the lock is taken: with a reading two ticks late 7 requests of one interval pass under limit 3 |
| SenderLock.Locker.constructor | internal/chatwoot/conversations/locker.go:39-47 | an empty map and a positive TTL |
| SenderLock.Locker.TryAcquire | internal/chatwoot/conversations/locker.go:83-97 | refuses exactly while an unexpired entry is there, else enters a token that is the expiry and hands out the grant for it |
| SenderLock.Locker.Release | internal/chatwoot/conversations/locker.go:97-106 | acts once per grant, and removes the entry only when it still carries the grant's token |
| SenderLock.StepKeepsInv | internal/chatwoot/conversations/locker.go:81-106 | every attempt, release and clock step keeps: an unreleased grant owns its entry or has expired, and no two of a key share a token |
| SenderLock.AtMostOneLiveGrant | internal/chatwoot/conversations/locker.go:81-106 | in every run at most one unreleased grant of a key is inside its TTL, and nobody can take the key meanwhile |
| SenderLock.ReleaseClearsOwnEntryOnly | internal/chatwoot/conversations/locker.go:97-106 | a superseded or foreign grant never evicts the current holder; the holder's own release frees the key |
| SenderLock.ReleasedRunLeavesNoEntry | internal/chatwoot/conversations/locker.go:81-106 | when all grants are released the map is empty |
| Conversations.Choose | internal/chatwoot/conversations/conversations.go:141-171 | the newest open conversation of the inbox is reused; without one the newest pending one, where that is allowed; without either the newest resolved one is reopened, where that is allowed; else nothing |
| Conversations.ChoiceFollowsPreference | internal/chatwoot/conversations/conversations.go:138-171 | the same order of preference of the specification, over the listing alone |
| Conversations.Resolver.CachedId | internal/chatwoot/conversations/conversations.go:188-196 | answers exactly the unexpired entries |
| Conversations.Resolver.Store | internal/chatwoot/conversations/conversations.go:199-203 | enters the id for half an hour, and a read right after finds it |
| Conversations.Resolver.Drop | internal/chatwoot/conversations/conversations.go:206-210 | removes one entry and no other |
| Conversations.Resolver.Clear | internal/chatwoot/conversations/conversations.go:214-223 | removes exactly the entries under the prefix of the instance |
| Conversations.NewestMeans | internal/chatwoot/conversations/conversations.go:141-171 | the running maximum is the largest id of its class, and 0 when the class is empty |
| Conversations.ChoiceIgnoresOrder | internal/chatwoot/conversations/conversations.go:141-171 | two listings of the same conversations in any order give the same choice |
| Conversations.ReopenSetsTarget | internal/chatwoot/conversations/conversations.go:141-171 | after reopening the chosen conversation every later listing chooses it |
| Conversations.CreateSetsTarget | internal/chatwoot/conversations/conversations.go:92-103 | after creating one where nothing could be reused every later listing chooses it |
| Conversations.StepKeepsInv | internal/chatwoot/conversations/conversations.go:68-136 | every step of every caller keeps: one caller inside the lock, and cache, callers and listing agree on one conversation |
| Conversations.ResolveConverges | internal/chatwoot/conversations/conversations.go:68-136 | with lock holds under the TTL, all successful concurrent calls return the same conversation, the newest open one or, without any and where that is allowed, the newest pending one; at most one is created, none when one could be reused or reopened, and the listing stays as it is when one could be reused |
| Conversations.ListingChangesOnlySo | internal/chatwoot/conversations/conversations.go:92-171 | a step changes the listing only by reopening the newest resolved conversation, or by opening one, pending where that is configured, each only when nothing better is there |
| Conversations.CallFailsExactly | internal/chatwoot/conversations/conversations.go:68-136 | a call fails if and only if its wait ends without the lock, its listing failed, or its reopening or create was not reported |
| Conversations.StoredIsReturned | internal/chatwoot/conversations/conversations.go:92-136 | what a caller stores it returns, and leaves in the cache for half an hour |
| Conversations.OverrunOpensTwo | internal/chatwoot/conversations/locker.go:81-97 | the TTL hypothesis is needed: a caller that outstays its grant and its successor open two conversations |
| InstanceLock.Locker.Retain | internal/instancelock/locker.go:55-68 | one more reference on the entry in the map, made first when there is none; nothing else changes |
| InstanceLock.Locker.Take | internal/instancelock/locker.go:38-39 | the semaphore is taken exactly when it was free |
| InstanceLock.Locker.Drain | internal/instancelock/locker.go:42-43 | the semaphore is freed and nothing else changes |
| InstanceLock.Locker.Release | internal/instancelock/locker.go:71-82 | one reference less, and the entry leaves the map with the last one |
| InstanceLock.StepKeepsInv | internal/instancelock/locker.go:35-82 | every step of every goroutine keeps: the count is the number of goroutines, the semaphore is taken iff one holds, all refer to the entry in the map |
| InstanceLock.MutualExclusion | internal/instancelock/locker.go:35-82 | in every interleaving of waiters, cancellations and releases one goroutine at most holds an instance, and all of an instance share the entry now in the map |
| InstanceLock.FreeInstanceCanBeTaken | internal/instancelock/locker.go:35-51 | when nobody holds an instance any waiter of it can go on |
| InstanceLock.MapTracksUse | internal/instancelock/locker.go:55-82 | the map has exactly the instances somebody refers to, with their exact counts, and is empty when all are done |
| MessageQueue.MessageTable.SelectDue | internal/storage/postgres/messages.go:29-31 | only due rows, oldest first, up to the limit, and no older due row is left out |
| MessageQueue.PickOldest | internal/storage/postgres/messages.go:29-31 | adding the oldest remaining due row keeps the batch ordered and complete |
| MessageQueue.MessageTable.ClaimQueued | internal/storage/postgres/messages.go:124-193 | queued rows whose next attempt is not in the future, oldest first, go to sending with nothing else of them changed; no other row changes, no due row older than one of them stays behind, and none at all when there was room; the copies handed out carry the stored retries |
| MessageQueue.MessageTable.Mark | internal/storage/postgres/messages.go:196-239 | the three updates overwrite the row whatever its status, and report whether the id exists |
| MessageQueue.MessageTable.RequeueStuck | internal/storage/postgres/messages.go:260-269 | exactly the rows in sending that were last updated before the cut go back to the queue, with their retries and next attempt as they were, and are counted |
| Outbox.RetryDelay | internal/message/outbox.go:345-354 | 1, 2, 4, 8, 16, 32 and 64 seconds, then two minutes; always below the threshold of the recovery |
| Outbox.Process | internal/message/outbox.go:207-240 | no other row changes; a row whose update goes through is failed with the right error after a missing session or sender, a permanent error or five retries, queued again 1, 2, 4, 8 or 16 seconds later after an earlier transient one, sent with the returned id when delivered, and left alone when cancelled; it sends exactly when nothing stops it, and reports exactly a row that is sent or failed |
| Outbox.OutcomeExactly | internal/message/outbox.go:207-313 | a row in sending becomes failed, queued or sent if and only if session, sender, contexts, error and earlier retries call for it, and then with those fields |
| Outbox.DelaysAre | internal/message/outbox.go:345-354 | the delay after each number of retries |
| Outbox.Fail | internal/message/outbox.go:307-313 | the row fails and is reported only when the update went through |
| Outbox.StepKeepsBounds | internal/message/outbox.go:143-313 | every step keeps the accounts of claims, sends, retries and requeues of every message |
| Outbox.SendsAreBounded | internal/message/outbox.go:206-295 | with no timing hypothesis: sends never exceed claims, claims never exceed 1 + retries + requeues, stored retries are the applied ones |
| Outbox.StepKeepsExclusive | internal/message/outbox.go:143-313 | from an exclusive state (one copy of a message at most, its row in sending with the stored retries) every step leads to one, except a recovery of a row that a live copy refers to |
| OutboxSharing.ClaimsShareExactly | internal/message/outbox.go:173-204 | while nobody shares a message a step makes two workers hold one if and only if it is a claim of a message that somebody still has a copy of |
| OutboxSharing.RecoveriesOrphanExactly | internal/message/outbox.go:143-171 | a copy loses its row, back to queued, if and only if a recovery takes that row |
| OutboxSharing.TwoWorkersExactly | internal/message/outbox.go:143-313 | in every run, with no timing hypothesis, two workers hold one message at some moment if and only if a recovery took the row of a live copy and the row was claimed again before that copy made its Mark call or was lost |
| OutboxSharing.NextClaimSharesExactly | internal/message/outbox.go:143-204 | what a recovery takes can be claimed at once, and from an exclusive state that claim leaves two copies of the message if and only if a live copy was left |
| Outbox.TimelyIsSafe | internal/message/outbox.go:143-171 | copies younger than the threshold make every recovery a safe one |
| Outbox.OneWorkerPerMessage | internal/message/outbox.go:173-313 | under that hypothesis one worker at most holds a message, and sends of one instance never overlap |
| Outbox.StepKeepsFinal | internal/storage/postgres/messages.go:196-269 | sent and failed are never left, although the updates have no guard |
| Outbox.OutcomeIsDefinitive | internal/message/outbox.go:206-313 | at most 5 stored retries, at most one status event and only for a final message, at most 6 + requeues sends |
| Outbox.LateCopySendsTwice | internal/message/outbox.go:143-204 | the hypothesis is needed: a copy older than the threshold sends a message again and puts a sent one back in the queue |
| Mirror.Worker.PutRow | internal/storage/postgres/chatwoot.go:115-132 | the upsert with its two ways to fail |
| Mirror.Worker.StoreCorrelation | internal/chatwoot/mirror/worker.go:1106-1133 | the table, the reply and the deletions after a put, a reconcile and a retry that can each fail |
| Mirror.Worker.Mirror | internal/chatwoot/mirror/worker.go:325-364 | create and correlate after a missed lookup, with the exact condition for a Nak |
| Mirror.Worker.HandleMessage | internal/chatwoot/mirror/worker.go:278-364 | the whole state and the reply in every branch and under every fault; it is handed back exactly when the configuration, the stack or the lookup failed, the create was not reported, or neither the put nor the reconcile read worked |
| Mirror.Worker.HandleEdit | internal/chatwoot/mirror/worker.go:369-440 | the same for edits, which are skipped when their original is not correlated |
| Mirror.NakIsExact | internal/chatwoot/mirror/worker.go:278-364 | a message is handed back to the broker if and only if one of those calls failed that it needed, and then it is not remembered |
| Mirror.EditNakIsExact | internal/chatwoot/mirror/worker.go:369-440 | the same for edits, whose original is looked up as well |
| Mirror.AcknowledgedIsMirrored | internal/chatwoot/mirror/worker.go:278-440 | at least once: after any run a delivery that gets past the filters with something to mirror and is acknowledged leaves its message or edit visible in Chatwoot, also when it is only remembered |
| Mirror.StepKeepsInv | internal/chatwoot/mirror/worker.go:278-440 | every delivery and restart keeps the ledger of copies and rows, and every row that is there |
| Mirror.CorrelationIsPermanent | internal/chatwoot/mirror/worker.go:1106-1133 | in every run a stored correlation is never overwritten, one copy at most is correlated, and the orphan branch for a different id is never reached |
| Mirror.ExtraCopiesAreCharged | internal/chatwoot/mirror/worker.go:278-364 | every copy beyond the first is charged to a distinct earlier delivery of the key that left without a row |
| Mirror.CopyIsStoredUnlessLost | internal/chatwoot/mirror/worker.go:1106-1133 | a copy keeps its row if and only if the create was reported and one of the two writes took effect |
| Mirror.CopiesExactly | internal/chatwoot/mirror/worker.go:278-440 | a step adds one copy of its key exactly when it is a delivery that gets to its create and the create takes effect |
| Mirror.NoLossNoDuplicate | internal/chatwoot/mirror/worker.go:278-440 | when no delivery that creates a copy of the key loses its row the key is mirrored once, whatever else is redelivered or fails and however often the worker restarts |
| Mirror.RedeliveryDuplicatesExactly | internal/chatwoot/mirror/worker.go:278-364 | after a delivery whose copy lost its row the next delivery of the message leaves two copies if and only if its event is not remembered, everything is ready, and its lookup, mapping and create work |
| Mirror.LostCopyIsForgottenUnlessOrphan | internal/chatwoot/mirror/worker.go:1106-1133 | the event of such a copy is remembered if and only if the create was reported and the reconcile read worked |
| Mirror.EditNeedsOriginal | internal/chatwoot/mirror/worker.go:392-399 | an edit without a correlated original mirrors nothing |
| Mirror.RecoveredDatabaseDuplicates | internal/chatwoot/mirror/worker.go:1093-1104 | the input at which the promise of the comment does not hold: the database is back before the redelivery |
| ConnectionNotices.Notices.Throttled | internal/chatwoot/mirror/worker.go:1060-1066 | a fresh stamp of the same status stops the notice |
| ConnectionNotices.Notices.PostNotice | internal/chatwoot/mirror/worker.go:595-619 | a post that takes effect and is reported as failed is visible, and is neither stamped nor remembered |
| ConnectionNotices.Notices.HandleConnection | internal/chatwoot/mirror/worker.go:533-619 | the whole state, the reply and whether the import fires |
| ConnectionNotices.Notices.MaybeAutoImport | internal/chatwoot/mirror/worker.go:626-648 | fires exactly when it has not since the last re-arming |
| ConnectionNotices.RepostsExactly | internal/chatwoot/mirror/worker.go:533-619 | after any run with lost replies and restarts, a notice identical to the last one posted is posted again if and only if that one was reported as failed, a restart lost its stamp, or 30 seconds are over |
| ConnectionNotices.IdenticalNoticesAreSpaced | internal/chatwoot/mirror/worker.go:533-619 | in every run two consecutive identical notices are closer than 30 seconds only when the earlier one was reported as failed or a restart came between |
| ConnectionNotices.LostReplyReposts | internal/chatwoot/mirror/worker.go:595-619 | such a post and its redelivery: the identical notice twice at once |
| ConnectionNotices.RestartReposts | internal/chatwoot/mirror/worker.go:533-619 | the same across a restart, with the import fired twice |
| ConnectionNotices.ImportsAreBounded | internal/chatwoot/mirror/worker.go:533-648 | in every run the import fires at most once, and once more per re-arming notice and per restart |
| ConnectionNotices.ImportFiresExactly | internal/chatwoot/mirror/worker.go:533-648 | a delivery fires it if and only if a connected notice is posted with success and the import has not fired since it was last re-armed |
| ConnectionNotices.SuppressedNoticeRearms | internal/chatwoot/mirror/worker.go:541-560 | a notice that is throttled or fails to post re-arms the import all the same |
| Idempotency.IdempotencyTable.DropExpired | internal/storage/postgres/idempotency.go:45-51 | removes the key only when it expired |
| Idempotency.IdempotencyTable.Insert | internal/storage/postgres/idempotency.go:53-64 | inserts, or does nothing when the key is there, and says which |
| Idempotency.IdempotencyTable.Select | internal/storage/postgres/idempotency.go:66-78 | which of the four readings a row gives: none, another fingerprint, not completed, or its response |
| Idempotency.IdempotencyTable.Complete | internal/storage/postgres/idempotency.go:82-97 | stores the response in the record of the key, if it is there |
| Idempotency.IdempotencyTable.Release | internal/storage/postgres/idempotency.go:101-108 | removes the key |
| Idempotency.IdempotencyTable.DeleteExpired | internal/storage/postgres/idempotency.go:112-118 | keeps exactly the unexpired keys and counts the rest |
| Idempotency.ResponseCapture.WriteHeader | internal/httpapi/idempotency.go:214-221 | the first status wins |
| Idempotency.ResponseCapture.Write | internal/httpapi/idempotency.go:224-231 | bytes are appended; a body without status means 200 |
| Idempotency.CaptureMeans | internal/httpapi/idempotency.go:205-231 | what is captured after any calls is the first status, or 200, and every byte in order |
| Idempotency.Acquire | internal/storage/postgres/idempotency.go:42-79 | with nobody in between, the request owns the key exactly when it was free or expired, and otherwise reads the record that was there |
| Idempotency.Finish | internal/httpapi/idempotency.go:145-175 | no other key changes; the key stays, completed with the first status and every byte, if and only if it was there, something was written, and the status is neither in 400..499 nor 503; else it is gone |
| Idempotency.StepKeepsInv | internal/httpapi/idempotency.go:75-179 | every statement of every concurrent request keeps the protocol's invariant |
| Idempotency.OneOwnerPerKey | internal/httpapi/idempotency.go:75-179 | a running handler is the one owner of its key, with its record in progress, or unprotected |
| Idempotency.ReplaysAreGenuine | internal/httpapi/idempotency.go:100-179 | a replay is the status and body of a finished owner run with the same fingerprint, and no 4xx or 503 is stored |
| IdempotencyEscape.EscapesExactly | internal/httpapi/idempotency.go:121-138 | in one step a request becomes unprotected if and only if a statement of its own fails or its select finds no record |
| IdempotencyEscape.RecordChangesExactly | internal/storage/postgres/idempotency.go:42-118 | a key leaves the table exactly by its owner's release or by being found expired, and comes in exactly by an insert |
| IdempotencyEscape.UnprotectedExactly | internal/httpapi/idempotency.go:75-179 | in every run, with any faults, a request is unprotected if and only if a statement of its own failed, or the record that beat its insert was released or found expired and not entered again before it selected; and its handler has not ended since |
| IdempotencyEscape.FlawlessUnprotectedExactly | internal/httpapi/idempotency.go:75-179 | without a failing statement it is the vanished record, and nothing else |
| Idempotency.CloseDecidesRepeats | internal/httpapi/idempotency.go:121-179 | once an owner is done the key is free after no response, a 4xx or a 503; after any other response, a 5xx too, a repeat is replayed and other content is refused |
| Idempotency.HandlerDecidesRepeats | internal/httpapi/idempotency.go:121-231 | the same from the calls of the handler on: the repeat gets the first status, or 200, and every byte |
| Idempotency.RepeatsAreAnswered | internal/storage/postgres/idempotency.go:66-78 | which answer a request that lost its insert gets, for every record it can read |
| Idempotency.KeysLastADay | internal/httpapi/idempotency.go:121 | a request asks for its key for 24 hours |
| IdempotencyEscape.ReleasedRecordUnprotects | internal/storage/postgres/idempotency.go:53-71 | the release: with no fault at all two handlers of one key can run at once |
| IdempotencyEscape.ExpiredRecordUnprotects | internal/storage/postgres/idempotency.go:53-71 | the expiry: a stored 200 is swept between the insert and the select of a repeat, whose handler runs again |
| Fingerprint.MultipartParts | internal/httpapi/idempotency.go:377-407 | the sorted canonical parts of the body, a part with a file name being a file; nothing when the reader or the content of a part fails |
| Fingerprint.PartsFingerprint | internal/httpapi/idempotency.go:331-340 | the loop writes exactly the route and the framed parts into the hash |
| Fingerprint.FrameIsUnique | internal/httpapi/idempotency.go:334-338 | a length-prefixed frame and what follows it can be cut apart in one way only |
| Fingerprint.FramingIsInjective | internal/httpapi/idempotency.go:331-340 | equal framings come from equal lists of parts |
| Fingerprint.FingerprintMeansSameParts | internal/httpapi/idempotency.go:331-407 | for one method and route the bytes hashed for two bodies are equal if and only if their multisets of canonical parts are |
| Fingerprint.CanonicalIsInjective | internal/httpapi/idempotency.go:377-407 | with NUL-free names the canonical form tells two parts apart |
| Fingerprint.FingerprintIsExact | internal/httpapi/idempotency.go:331-407 | with NUL-free names, equal bytes if and only if equal multisets of parts |
| Fingerprint.PartsDifferExactly | internal/httpapi/idempotency.go:389-403 | two parts as read count as the same if and only if names and file names agree, and the content type and digest of files or the text of fields |
| Fingerprint.RouteIsHashed | internal/httpapi/idempotency.go:331-340 | another method or another route gives other bytes, whatever the parts |
| Fingerprint.NulInNameCollides | internal/httpapi/idempotency.go:399-403 | a NUL in a field name makes two different bodies collide |
| Fingerprint.NulInFileCollides | internal/httpapi/idempotency.go:389-396 | so does one in the name, the file name or the content type of a file part |
| Reconnect.InstanceSession.SetStatus | internal/session/whatsmeow/manager.go:440-456 | the two ignored reports change nothing; any other sets status, reason and the terminal flag, and a JID makes the session paired under it |
| Reconnect.InstanceSession.ScheduleReconnect | internal/session/whatsmeow/reconnect.go:67-79 | registers a loop exactly when paired, not terminal and none is registered |
| Reconnect.InstanceSession.TakeReconnect | internal/session/whatsmeow/reconnect.go:82-87 | takes the handle away under the lock |
| Reconnect.InstanceSession.FinishLoop | internal/session/whatsmeow/reconnect.go:94-101 | clears the handle only when it is its own |
| Reconnect.InstanceSession.Forget | internal/session/whatsmeow/manager.go:614-627 | forgets the paired identity |
| Reconnect.StepKeepsInv | internal/session/whatsmeow/reconnect.go:67-125 | every critical section and every pending policy or cancel keeps the invariant |
| Reconnect.TerminalWindow | internal/session/whatsmeow/manager.go:440-472 | in every interleaving terminal means error or disconnected with a reason, and a registered loop coexists with it only while a terminal transition's policy is pending |
| Reconnect.PairedMeansJid | internal/session/whatsmeow/manager.go:430-456 | in every interleaving a session is reconnectable exactly while it has a JID |
| Reconnect.JidChangesExactly | internal/session/whatsmeow/manager.go:449-452 | a JID is replaced by a new one that is reported, and forgotten by Disconnect alone |
| Reconnect.PolicyIsExact | internal/session/whatsmeow/reconnect.go:119-125 | a plain drop starts a loop exactly when the session is paired, not terminal and without one; every other transition takes the loop there is to stop it |
| Reconnect.NoLeakedLoop | internal/session/whatsmeow/reconnect.go:67-114 | a loop nobody stopped is registered, or somebody is about to stop it; with nobody about to, there is one at most |
| Reconnect.QuietTerminalSession | internal/session/whatsmeow/reconnect.go:82-125 | once all goroutines are done a terminal session has no loop left that was not stopped |
| Reconnect.FinishSparesNewerLoop | internal/session/whatsmeow/reconnect.go:94-101 | a finishing loop never clears a newer loop's handle |
| Reconnect.TerminalSticks | internal/session/whatsmeow/manager.go:436-456 | only pairing or connecting leaves a terminal state |
| Relay.EventOutbox.Enqueue | internal/storage/postgres/events.go:31-38 | a new pending row in its place; a repeated id is rejected |
| Relay.EventOutbox.ClaimPending | internal/storage/postgres/events.go:44-79 | pending rows up to the limit, none left behind that is older than one of them, and none at all when there was room |
| Relay.EventOutbox.MarkPublished | internal/storage/postgres/events.go:82-92 | stamps the row and clears its error, and says whether it exists |
| Relay.EventOutbox.MarkAttempt | internal/storage/postgres/events.go:95-107 | counts the attempt with its cause |
| Relay.EventOutbox.DeletePublishedBefore | internal/storage/postgres/events.go:111-118 | removes exactly the rows published before the cut |
| Relay.PublishNow | internal/events/relay.go:174-193 | every event of the batch is tried: a publish seen to succeed stamps its row, anything else counts one attempt with its cause and leaves it pending, a failed update leaves no trace; the broker has exactly what it took; no failure is reported if and only if all were published and marked |
| Relay.ClaimIsOldest | internal/storage/postgres/events.go:59-60 | what a claim leaves pending is younger than all it takes, by creation and then id |
| Relay.PublishRecordsAt | internal/events/relay.go:174-201 | what a batch with any outcomes does to each row |
| Relay.PublishAccepts | internal/events/relay.go:174-193 | the broker has what it had and the decodable events it did not refuse |
| Relay.StepKeepsInv | internal/events/relay.go:98-213 | inserts, deliveries with any faults and cleanups keep order, unique ids and the account of every event |
| Relay.NoEventLost | internal/events/relay.go:98-213 | at every moment of every run an enqueued event is a pending row or was accepted by the broker, and no cleanup can take a pending one |
| Relay.ClaimTakesOldest | internal/storage/postgres/events.go:44-79 | a pending row is claimed if and only if fewer pending rows than the limit come before it |
| Relay.PassAt | internal/events/relay.go:174-193 | what a pass in which all calls succeed does to each row |
| Relay.PassProgress | internal/events/relay.go:98-193 | such a pass lowers the number of publishable rows if and only if one of them is within reach of the batch |
| Relay.DrainsExactlyWhenReachable | internal/events/relay.go:98-193 | repeated passes publish everything publishable if and only if fewer undecodable rows than a batch come before each such row |
| Relay.FewPoisonDrains | internal/events/relay.go:98-193 | with fewer undecodable rows than a batch every pass makes progress until nothing publishable is left |
| Relay.BlockedStays | internal/events/relay.go:98-193 | a row behind a batch of undecodable ones is never published |
| HistorySync.HistorySyncAccumulator.MergeConversation | internal/session/historysync.go:180-206 | the slices after the merge, with the index maps still exact |
| HistorySync.HistorySyncAccumulator.AppendMessages | internal/session/historysync.go:193-205 | the loop appends the messages with a new id, and its seen set stays the set of ids |
| HistorySync.HistorySyncAccumulator.PutCell | internal/session/historysync.go:186-205 | the chat is overwritten where it stands in the slice |
| HistorySync.HistorySyncAccumulator.MergeContact | internal/session/historysync.go:210-224 | the slice after the merge, with its index still exact |
| HistorySync.HistorySyncAccumulator.Observe | internal/session/historysync.go:81-100 | the whole feed after a chunk, with its instant |
| HistorySync.HistorySyncAccumulator.ObservePreview | internal/session/historysync.go:104-111 | the largest announced total wins |
| HistorySync.HistorySyncAccumulator.MarkComplete | internal/session/historysync.go:114-119 | the feed is complete, and nothing else of it changes but its instant |
| HistorySync.HistorySyncAccumulator.TakeSnapshot | internal/session/historysync.go:122-144 | the feed in fresh slices, the message slices of every chat too |
| HistorySync.HistorySyncAccumulator.Reset | internal/session/historysync.go:148-162 | an empty feed with empty indexes |
| HistorySync.FeedMeans | internal/session/historysync.go:180-206 | merging conversations one by one gives each chat in the order of first sight, its first non-empty name and the first message of every id |
| HistorySync.ContactsMean | internal/session/historysync.go:210-224 | the same for contacts with a JID |
| HistorySync.RunMeans | internal/session/historysync.go:81-162 | after any run of calls the feed is what was observed since the last reset means, however the chunks cut it |
| HistorySync.StoredMessagesWereObserved | internal/session/historysync.go:192-205 | every message of a feed was observed in its chat, unaltered but for a missing chat, which becomes that of its conversation |
| HistorySync.ObservedMessagesAreStored | internal/session/historysync.go:180-206 | every observed message id is in the feed of its chat |
| HistorySync.CountersMean | internal/session/historysync.go:81-162 | since the last reset: as many chunks as observes, the largest progress and total, complete once it was said, the instant of the last call |
| HistorySync.LastSyncTypeStays | internal/session/historysync.go:90-92 | the sync type is the last one that was named |
| HistorySync.SnapshotIsUnaffected | internal/session/historysync.go:122-162 | a snapshot still holds the feed of its instant after any run of later observes, previews and resets |
| HistorySync.RedeliveryChangesNothing | internal/session/historysync.go:78-100 | re-observing anything since the last reset leaves conversations and contacts as they are |
| Dedup.FirstsAreEarliest | internal/session/historysync.go:192-205 | an element is kept if and only if it is the earliest with its key |
| Import.NormalizeMessages | internal/chatwoot/import/import.go:179-233 | every row is that of an eligible message, every eligible message has a row, and the rows go by chat, time and source id |
| Import.QualifiesExactly | internal/chatwoot/import/import.go:186-206 | a message goes in if and only if it has an id and a chat, has a text or gets a placeholder, and is not older than the day limit or the given instant unless it has no instant |
| Import.RowTells | internal/chatwoot/import/import.go:187-222 | the row has its message's author, the user part of its chat, its trimmed text or the placeholder for none, and its time or the import's for none |
| Import.NormalizedMeans | internal/chatwoot/import/import.go:179-233 | the same for the whole feed, both ways, with the order |
| Import.ChatUserIs | internal/chatwoot/import/import.go:602-607 | the user part is what comes before the last '@', or everything |
| Import.SplitAtLast | internal/chatwoot/import/import.go:602-607 | a JID is cut at its last '@' |
| Import.ChunkMessageRows | internal/chatwoot/import/import.go:235-245 | the loop cuts the rows into the slices of the specification |
| Import.ChunksCoverRows | internal/chatwoot/import/import.go:235-245 | the chunks put together are the rows; all are non-empty and full but the last |
| Import.WantedIsExact | internal/chatwoot/import/import.go:330-344 | what is to be inserted has exactly the source ids of the rows that are not stored, each once |
| Import.WantedInTwo | internal/chatwoot/import/import.go:152-159 | inserting chunk by chunk is inserting in one go: dedup works across chunks as inside one |
| Import.WantedIsOrdered | internal/chatwoot/import/import.go:223-231 | inserts go by chat, then time, then source id, and no row is lost or made by the sort |
| Import.WantedIsLeast | internal/chatwoot/import/import.go:330-344 | of the rows of one source id the least goes in |
| Import.SourcesOfRows | internal/chatwoot/import/import.go:186-222 | a source id is among the rows if and only if it is WAID: and the trimmed id of an eligible message |
| Import.LaterRunQualifiesLess | internal/chatwoot/import/import.go:180-206 | a later run over the same feed qualifies no further message |
| Import.SecondRunInsertsNothing | internal/chatwoot/import/import.go:112-116 | after a run a later one over the same feed wants nothing |
| ImportDatabase.Chatwoot.EnsureLink | internal/chatwoot/import/import.go:501-513 | the link of contact and inbox is found or made, and an insert that commits and is reported as failed leaves it behind |
| ImportDatabase.Chatwoot.Allocate | internal/chatwoot/import/import.go:514-539 | the allocation of a display id with its five attempts, against whatever Chatwoot inserts meanwhile and with every statement able to fail before or after it took effect |
| ImportDatabase.Chatwoot.EnsureConversation | internal/chatwoot/import/import.go:491-540 | lookup, link and allocation; a conversation that is there is reused, the oldest one, and nothing is written |
| ImportDatabase.AllocatedIsHome | internal/chatwoot/import/import.go:509-539 | display ids stay unique, no conversation is lost, success is a conversation of the contact, and failure of working statements needs an allocation by Chatwoot in every attempt |
| ImportDatabase.EnsuredIsHome | internal/chatwoot/import/import.go:491-540 | the same for the whole call, which links the contact to the inbox before it opens a conversation |
| ImportDatabase.Chatwoot.EnsureContacts | internal/chatwoot/import/import.go:409-455 | on success every author has a contact; no contact is lost or invented |
| ImportDatabase.Chatwoot.EnsureConversations | internal/chatwoot/import/import.go:320-327 | on success every author has a conversation of its own |
| ImportDatabase.Chatwoot.FreshRows | internal/chatwoot/import/import.go:330-344 | the loop keeps the first row of every new source id whose author has a conversation |
| ImportDatabase.SkipNeverFires | internal/chatwoot/import/import.go:340-342 | the skip for a missing conversation never drops a row |
| ImportDatabase.Chatwoot.ImportMessageChunk | internal/chatwoot/import/import.go:266-380 | all wanted rows of a chunk land, each in its own chat's conversation, or none does; the count is theirs exactly when the chunk is reported done |
| ImportDatabase.ChunkLands | internal/chatwoot/import/import.go:152-159 | a chunk on top of a handled prefix lands what the longer prefix wants |
| ImportDatabase.Chatwoot.ImportRows | internal/chatwoot/import/import.go:151-160 | a run inserts what a prefix of the rows wants; it counts a prefix of that, shorter by one chunk exactly when it stops at a chunk whose insert took effect and was reported as failed |
| ImportDatabase.Chatwoot.ImportMessages | internal/chatwoot/import/import.go:126-160 | every record a run inserts is that of an eligible message of the feed, with its author, text, time and chat, from the token's user or from the contact, and in order; on success every eligible message is stored and the count is the growth; the runs that end before the rows change nothing |
| ImportDatabase.LandedIsImported | internal/chatwoot/import/import.go:346-380 | what lands of a prefix of the rows are such records, in order |
| ImportDatabase.AllStored | internal/chatwoot/import/import.go:126-160 | when all of the rows landed every eligible message is stored |
| ImportDatabase.CountIsExactUnlessLost | internal/chatwoot/import/import.go:151-160 | the count is the growth of the table if and only if no chunk landed without being counted |
| ImportDatabase.UndercountsExactly | internal/chatwoot/import/import.go:151-160 | when only inserts can fail the count falls short if and only if the first chunk that brings something and whose insert fails is stored all the same |
| ImportDatabase.LostReplyUndercounts | internal/chatwoot/import/import.go:376-380 | an input at which one message is stored and none is counted |
| ImportDatabase.ImportTwice | internal/chatwoot/import/import.go:112-160 | two runs over the same feed: when the first went through, the second, with any inbox, token and faults, leaves the messages as they are and counts 0 |
| Markdown.Protect | internal/chatwoot/mapper/content.go:43-55 | the loop gives the text with indexed placeholders for the matches, and their inner texts |
| Markdown.Restore | internal/chatwoot/mapper/content.go:58-63 | the placeholders are swapped back one after the other |
| Markdown.MarkdownToChatwoot | internal/chatwoot/mapper/content.go:68-76 | the composition of its passes |
| Markdown.MarkdownToWhatsApp | internal/chatwoot/mapper/content.go:81-87 | the composition of its passes |
| Markdown.Pass | internal/chatwoot/mapper/content.go:33-41 | a regular expression pass over a text of spans rewrites exactly the spans of its kind |
| Markdown.ToChatwootMeans | internal/chatwoot/mapper/content.go:65-76 | every span changes its marks to Chatwoot's and nothing else changes |
| Markdown.ToWhatsAppMeans | internal/chatwoot/mapper/content.go:81-87 | on the way back bold and strike spans are placeholders until the restore calls |
| MarkdownRoundTrip.Stage | internal/chatwoot/mapper/content.go:58-63 | restoring one placeholder restores its span, or leaves a mark inside a placeholder |
| MarkdownRoundTrip.BrokenStays | internal/chatwoot/mapper/content.go:58-63 | no later restore repairs such a text |
| MarkdownRoundTrip.RoundTripsExactlyWhenApart | internal/chatwoot/mapper/content.go:65-87 | WhatsApp text goes to Chatwoot and back unchanged if and only if no plain text between two pending placeholders reads like the label being restored |
| MarkdownRoundTrip.RoundTrips | internal/chatwoot/mapper/content.go:65-87 | so every text without a plain part that reads B or S and a number comes back unchanged |
| MarkdownRoundTrip.PlainLabelIsTaken | internal/chatwoot/mapper/content.go:58-87 | the text `*a* *b*B0*c*` does not come back |
| BoundedFile.BoundedFile.Grow | internal/session/whatsmeow/media.go:162-180 | re-slices within the capacity and otherwise copies the content into a zeroed larger array, and how much it copies |
| BoundedFile.BoundedFile.Read | internal/session/whatsmeow/media.go:62-69 | the specified answer and position |
| BoundedFile.BoundedFile.Write | internal/session/whatsmeow/media.go:73-85 | the specified answer and whole buffer, also past the limit, and what it copied |
| BoundedFile.BoundedFile.ReadAt | internal/session/whatsmeow/media.go:88-100 | the specified answer, with nothing changed |
| BoundedFile.BoundedFile.WriteAt | internal/session/whatsmeow/media.go:103-114 | the specified answer and whole buffer, and what it copied |
| BoundedFile.BoundedFile.Seek | internal/session/whatsmeow/media.go:117-134 | the specified position or error |
| BoundedFile.BoundedFile.Truncate | internal/session/whatsmeow/media.go:137-153 | the specified buffer or error, and what it copied |
| BoundedFile.MemoryIsBounded | internal/session/whatsmeow/media.go:160-180 | in every run length <= capacity <= limit, and all regrowing together copies less than twice the limit |
| BoundedFile.StepAgreesExactly | internal/session/whatsmeow/media.go:61-180 | every operation answers as on a plain zero-filled file and leaves the same content if and only if the bytes it exposes are zero |
| BoundedFile.RunAgreesExactly | internal/session/whatsmeow/media.go:61-180 | a run agrees with the plain file throughout if and only if every step exposes zeros only |
| BoundedFile.CleanRunAgrees | internal/session/whatsmeow/media.go:61-180 | it does whenever no gap follows a shrinking truncate |
| BoundedFile.StaleByteComesBack | internal/session/whatsmeow/media.go:137-168 | a shrink followed by a growth brings an overwritten byte back |
| JidResolver.VariantOfVariant | internal/message/jidresolver.go:206-226 | the variant of the variant is the number itself or nothing |
| JidResolver.OnlyDigitsMeans | internal/message/jidresolver.go:190-200 | what is left is all digits, and a number of digits is left alone |
| JidResolver.OnlyDigitsSplits | internal/message/jidresolver.go:190-200 | every digit stays in its place and nothing else does |
| JidResolver.VariantIsNinthDigit | internal/message/jidresolver.go:206-226 | which numbers have another form, and that it differs in the ninth digit alone |
| JidResolver.NumberComesFirst | internal/message/jidresolver.go:132-153 | the number as asked wins over its other form |
| JidResolver.DirectMeans | internal/message/jidresolver.go:81-153 | what is asked: a JID as it is, else the digits, first as they are and then in the other form |
| JidResolver.JIDResolver.IsNegative | internal/message/jidresolver.go:157-169 | an unexpired miss, and an expired one is dropped |
| JidResolver.JIDResolver.RememberNegative | internal/message/jidresolver.go:173-187 | the miss with its expiry, and the sweep once per TTL |
| JidResolver.JIDResolver.LookUp | internal/message/jidresolver.go:132-153 | the number, then its variant; an error exactly when a probe that was needed failed |
| JidResolver.JIDResolver.Resolve | internal/message/jidresolver.go:81-128 | the whole state and the answer, in every branch |
| JidResolver.UnavailableExactly | internal/message/jidresolver.go:81-153 | there is no answer if and only if neither an unexpired miss nor an unexpired row is known and the session or a probe that was needed failed |
| JidResolver.MissIsRemembered | internal/message/jidresolver.go:113-119 | a miss is remembered for a minute under both forms |
| JidResolver.RowsLastADay | internal/message/jidresolver.go:121-128 | a row is written only with the answer of a lookup, for a day |
| JidResolver.VariantMissesToo | internal/message/jidresolver.go:113-119 | a number absent under both forms is absent when asked under the other one |
| JidResolver.CallStaysHonest | internal/message/jidresolver.go:81-187 | every call, with any clocks and faults, keeps the caches to what the lookup would answer |
| JidResolver.AnswersAgree | internal/message/jidresolver.go:81-187 | after any run an answer is that of the lookup without caches, and there is one unless the session or a probe fails |
| JidResolver.NegativeStaysShort | internal/message/jidresolver.go:171-187 | the misses in memory are always those of one span of two TTLs |
| JidResolver.JIDResolver.DeleteExpired | internal/storage/postgres/jidcache.go:56-62 | keeps exactly the unexpired rows |
| Text.SortSorts | internal/chatwoot/import/import.go:223-231 | the stable sort orders and keeps every element |
| Text.SortIsStable | internal/chatwoot/import/import.go:223-231 | equivalent elements stay in their order |
| Text.LessMeans | internal/chatwoot/import/import.go:224-230 | the first difference decides, and a prefix comes first |
| Text.TrimMeans | internal/chatwoot/import/import.go:187-207 | only white space goes, and only from the two ends |
| Text.DecimalMeans | internal/chatwoot/mapper/content.go:51-53 | the digits of the number, with no leading zero |
| Text.SortedFormIsUnique | internal/httpapi/idempotency.go:331-340 | under a total order the sorted form of a multiset is unique |
| Text.DecimalIsInjective | internal/chatwoot/mapper/content.go:51-53 | two indexes never share a placeholder |

## Left out

- Wall-clock progress: the loops that wait, poll and back off (`Outbox.Run`, `Relay.Run`, the
  polling loop of the sender lock, the reconnect delays) are steps that may happen at any time.
- NATS, Postgres, whatsmeow and the Chatwoot API themselves; each call is an outcome. A claim with
  `FOR UPDATE SKIP LOCKED` is one atomic step.
- HTTP handlers, authentication, configuration, boot and shutdown, SSRF checks, message building,
  vCard, protobuf and JSON extraction, receipts beyond the stamp they leave on a row, quotas and the
  webhook retry loop: plumbing or case analysis that one branch settles.
- Deletion of messages and read receipts in the mirror (`HandleDelete`, `HandleRead`), the cap on
  its seen set, the runtime cache and the wake-up of the background import.
- Instance deletion and its cascades, and a change of the connector's configuration.
- SHA-256: the fingerprint is stated on the bytes before it, and a file's digest stands for its
  content. How the bytes of a body are cut into parts is not modelled, only what is done with them.
- HistorySync: an append always makes a new slice; that it may instead write behind the length of
  the old one, where nobody looks, is not modelled. Neither is the mutex: calls come one by one.
- Import: tags, labels and contact names and phones of the bulk contact import, and other writers
  of messages during a run (a live mirror write between the lookup and the insert of a chunk would
  be inserted twice).
- Import.SecondRunInsertsNothing: assumes that the day limit of the later run does not end at the very
  zero time of the clock when that of the first did not, because the source reads that as no limit.
- ImportDatabase.ImportTwice: assumes the same.
- Markdown: regular expression matching is specified directly for the five expressions of the
  file, on characters; list, contact and other formatters are not modelled.
- MarkdownRoundTrip.RoundTripsExactlyWhenApart: span contents hold no marks, so nested styles are not
  covered.
- BoundedFile: overflow of 64-bit offsets; the caller's buffer is a count and a returned sequence.
- JidResolver: concurrent calls on one resolver are taken one after the other; each of their
  atomic parts keeps the same invariant. The directory is fixed.
- Conversations.ResolveConverges: is about one sender; other senders touch other keys, and nobody
  else changes statuses meanwhile.
- ConnectionNotices: the text and the QR image of a notice, and the cap on the seen set.
