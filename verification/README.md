# Verification of the concurrent clients, migrations, printers and passes

This project models the parts of the application whose correctness depends on
interleavings, whole runs or whole tables, and proves what they promise for all
inputs. Check everything with `dafny verify dfyconfig.toml` (Dafny 4.11).

| module | what it models |
|---|---|
| `Notes`, `WriteLock` | client-owned notes: the pure update and append functions, and the per-conversation promise chain that guards each read-modify-write |
| `ChatHistory` | the cursor paging over stored messages |
| `RefreshLock`, `AuthorizedFetch` | the cross-tab token-refresh lock with its time to live, the single flight inside a tab, and the retry recursion around every request |
| `SupportSessions` | the timed table of unlocked support-encryption sessions |
| `Reconnect` | the realtime connection: tickets, sockets, backoff, clean-up and remounting |
| `SessionMigration` | the two-statement migration that binds refresh tokens to sessions |
| `ModerationHistory` | the triggers that make moderation history append-only, under transactions and savepoints |
| `Roles` | role names, permissions, and the migration that renames two roles |
| `KeepOldest` | the two migrations that pick the oldest row of a group |
| `PdfText`, `PdfFile`, `PdfContent`, `PdfPage` | the hand-written PDF builder, against a reader that follows ISO 32000-1 |
| `Csv` | the CSV printer, against a reader that follows RFC 4180 section 2 |
| `ChunkHeaders` | the one-pass header inheritance of the chunk backfill |
| `PythonText`, `Wrappers` | shared helpers |

## How the models are built

Each protocol is a state with labelled steps. A step boundary lies at every
`await`, timer and event; `Do` is total and a step that is not possible changes
nothing, so `Run` ranges over every schedule. The same state also appears as a
class with the fields of the source, whose methods are proved to take exactly
those steps. Migrations are functions on finite tables, each SQL statement
evaluated on one snapshot, with a class that runs the statements in order. The
printers are proved against readers written from the standards, which share no
code with the writers.

## Where the code does less than its surroundings suggest

Each point is a theorem with the exact condition.

- A tab's release does remove another tab's lock, exactly when that lock has
  expired (`RefreshLock.ReleaseOfAnothersLock`), and that happens
  (`RefreshLock.AnothersLockIsReleased`); two refresh sections can overlap once one
  is 15 s old (`RefreshLock.OldSectionsCanOverlap`).
- The six-request and 12-second limits of a fetch are reached
  (`AuthorizedFetch.SixRequestsHappen`).
- Walking the history back visits every message once exactly when every page begins
  with a non-empty id that no earlier message has
  (`ChatHistory.WalkVisitsAllExactly`); an empty one can make it fetch the newest
  page for ever (`ChatHistory.EmptyIdNeverEnds`).
- Erasing a user loses exactly the moderation history of the reports that the user
  filed (`ModerationHistory.ErasureLosesExactly`), so a row can disappear without a
  statement that deletes reports (`ModerationHistory.ErasureLosesHistory`).
- The role upgrade keeps a user's permissions exactly when the admin role exists, or
  the user is no super_admin, or holds another role whose name means admin
  (`Roles.UpgradeKeepsPermissionsExactly`); it can take them away
  (`Roles.LoneSuperAdminIsStripped`).
- A printed CSV table can be read back exactly when every row has a cell
  (`Csv.ComesBackExactly`).
- A cross-reference entry has its 20 bytes exactly when the offset is below 10^10
  (`PdfFile.EntryIsTwentyBytes`); a literal string keeps its bytes for a conforming
  reader exactly when it has no carriage return (`PdfText.RoundTripExactly`). The real
  page meets both conditions for every text.
- After a remount, the close event of the socket left behind can show
  "disconnected" over an open connection; exactly such a late close does it
  (`Reconnect.ShownExactly`, `Reconnect.ShownOverRuns`,
  `Reconnect.LateCloseHidesTheConnection`).
- Downgrading and upgrading the collection owners gives the table back exactly when
  the owners are the earliest eligible members (`KeepOldest.DowngradeIsUndoneExactly`).

## Model

| member | source | states |
|---|---|---|
| WriteLock.MutualExclusion | frontend/lib/clientOwnedStorage.ts:37-56 | Under every schedule, of two calls on one conversation at most one is between its start and its end, and the later one starts only when the earlier has settled |
| WriteLock.NoLostUpdate | frontend/lib/clientOwnedStorage.ts:371-398 | Under every schedule the stored record is the sequential fold of the written changes in arrival order, and every settled call ended as it would have at its turn in that sequence |
| WriteLock.FailsExactly | frontend/lib/clientOwnedStorage.ts:371-398 | Over every schedule a call has failed if and only if storage or decryption answered one of its own possible steps with an error; in particular a successful read never ends it |
| WriteLock.WithoutErrorsNothingFails | frontend/lib/clientOwnedStorage.ts:371-398 | If none of its answers is an error, a settled call has written, returned null or thrown, exactly as its change does at its turn |
| WriteLock.ConcurrentAppendsAddUp | frontend/lib/clientOwnedStorage.ts:385-398 | However concurrent appends interleave, the note's text is the original and the written additions joined in arrival order |
| WriteLock.QueueKeyMeansPending | frontend/lib/clientOwnedStorage.ts:46-55 | The queue map holds a conversation exactly while some call on it is pending |
| WriteLock.StepsNeverAddWork | frontend/lib/clientOwnedStorage.ts:41-55 | No step, new arrivals included, adds to the work ahead of a call, and a step of its queue takes some away |
| WriteLock.SomeoneCanGoOn | frontend/lib/clientOwnedStorage.ts:47-55 | While a call is pending, the oldest pending call of its queue can take a step, whatever storage answers |
| WriteLock.TurnsBounded | frontend/lib/clientOwnedStorage.ts:41-55 | A call is settled once its queue has had as many turns as there was work ahead of it, whatever else happens |
| WriteLock.EveryCallSettles | frontend/lib/clientOwnedStorage.ts:41-55 | After every schedule, and whatever storage answers from then on, some further turns settle the call, no more of them than there was work ahead |
| WriteLock.ConversationsIndependent | frontend/lib/clientOwnedStorage.ts:35-56 | Steps of queued calls on different conversations commute, and neither enables nor disables the other |
| WriteLock.ArrivalElsewhere | frontend/lib/clientOwnedStorage.ts:41-46 | A call that arrives on one conversation leaves the record, the queue entry, the calls and the possible steps of every other one alone, and commutes with those steps |
| WriteLock.ConversationWrites.constructor | frontend/lib/clientOwnedStorage.ts:35-35 | The program starts in the initial state, with an empty queue map |
| WriteLock.ConversationWrites.Request | frontend/lib/clientOwnedStorage.ts:41-46 | Taking the promise in the map and putting the own one in its place is the arrival step |
| WriteLock.ConversationWrites.Proceed | frontend/lib/clientOwnedStorage.ts:47-55 | Going on after an await, up to the next one, is the next step of the call, including the guarded removal from the map |
| Notes.AppendsKeepIdentity | frontend/lib/clientOwnedStorage.ts:98-140 | No sequence of appends changes id, owner, kind or creation time, and refused appends change nothing |
| Notes.AppendsContent | frontend/lib/clientOwnedStorage.ts:112-139 | After any sequence of non-recovery appends the content is the trimmed original and the trimmed accepted additions joined by the separator, in order |
| Notes.AppendsTitle | frontend/lib/clientOwnedStorage.ts:122-134 | The title is the first non-default one among the stored title and those of the accepted appends |
| Notes.UpdateExactly | frontend/lib/clientOwnedStorage.ts:73-96 | An update is refused if and only if the note is missing or not the user's deepspace note; otherwise it writes the title and content that it brings, stamps the note, and leaves every other field alone |
| Notes.AppendEndsExactly | frontend/lib/clientOwnedStorage.ts:103-121 | An append is refused like an update, and throws if and only if it adds nothing, or brings a recovery copy while the stored timestamp is not the expected one |
| Notes.AppendStores | frontend/lib/clientOwnedStorage.ts:122-139 | A stored append has the recovery copy, or else the old trimmed content, then the separator and the addition, and the addition alone after nothing |
| Notes.RecoveryTitle | frontend/lib/clientOwnedStorage.ts:113-131 | With a recovery copy the restored title wins over the stored one, and the given title replaces it only if it is a default one |
| Notes.DefaultTitleExactly | frontend/lib/clientOwnedStorage.ts:130-130 | A title is a default one if and only if, trimmed, it is empty or reads "untitled note" in any mixture of capitals |
| Notes.SpaceExactly | frontend/lib/clientOwnedStorage.ts:105-105 | The characters that trimming removes, one by one |
| Notes.TrimSpec | frontend/lib/clientOwnedStorage.ts:105-127 | Trimming takes away white space at both ends, all of it and nothing else, and leaves a trimmed text alone |
| ChatHistory.PageSize | frontend/lib/clientOwnedStorage.ts:413-419 | A page has limit + 1 entries exactly when more than `limit` messages precede the cursor, and otherwise all that do |
| ChatHistory.AnswerExactly | frontend/lib/clientOwnedStorage.ts:399-420 | For any store and any parameters the answer is the part of the conversation, in order, right before the cursor and of at most limit + 1 messages; nothing for an unknown cursor, the newest part for an empty one |
| ChatHistory.LimitIsNearest | frontend/lib/clientOwnedStorage.ts:401-402 | The limit is the number from 1 to 100 nearest to the one asked for, and 40 if that is no whole number |
| ChatHistory.InConversationKeepsOrder | frontend/lib/clientOwnedStorage.ts:405-406 | The filter treats the store part by part, so what it keeps stays in the order of the store |
| ChatHistory.InConversationSpec | frontend/lib/clientOwnedStorage.ts:405-406 | It keeps exactly the messages of the conversation, each as often as stored |
| ChatHistory.SortIsStable | frontend/lib/clientOwnedStorage.ts:407-412 | Messages with the same time and id stay in the order of the store |
| ChatHistory.WalkVisitsAllExactly | frontend/lib/clientOwnedStorage.ts:405-419 | For every history and cursor, using the first id of each page as the next cursor ends and visits every message before the cursor once, in order, if and only if every page on the way begins with a non-empty id that no earlier message has |
| ChatHistory.WholeConversationVisitedExactly | frontend/lib/clientOwnedStorage.ts:399-420 | The walk from the newest page visits the whole sorted conversation exactly once under the same condition, and only then |
| ChatHistory.DifferentIdsLeadBack | frontend/lib/clientOwnedStorage.ts:403-414 | The condition holds when all ids are different and none is empty |
| ChatHistory.EmptyIdNeverEnds | frontend/lib/clientOwnedStorage.ts:403-415 | If the newest page begins with an empty id, no number of fetches ends the walk |
| ChatHistory.NextPageFollowsExactly | frontend/lib/clientOwnedStorage.ts:403-417 | The next page ends where the present one begins if and only if the first id of the page is not empty and no earlier message has it |
| ChatHistory.SortSpec | frontend/lib/clientOwnedStorage.ts:405-412 | The listing is the conversation's messages, each as often as stored, in order of creation time and id |
| ChatHistory.LaterMessagesDoNotMatter | frontend/lib/clientOwnedStorage.ts:404-419 | The page of a cursor depends only on the messages that do not sort after the cursor message |
| ChatHistory.OneNewMessage | frontend/lib/clientOwnedStorage.ts:404-419 | A new message that sorts after the cursor, or belongs elsewhere, does not change the page, wherever the store lists it |
| RefreshLock.ReleaseOfAnothersLock | frontend/lib/api.ts:334-342 | A release changes another tab's lock if and only if that lock has expired |
| RefreshLock.ReleaseExactly | frontend/lib/api.ts:292-342 | A release empties the entry if and only if it is unreadable, expired, or the tab's own, and leaves it alone otherwise |
| RefreshLock.AnothersLockIsReleased | frontend/lib/api.ts:304-342 | There is a run in which a tab that outlived its lock clears the expired lock of the next tab, whose request is still outstanding |
| RefreshLock.FreshSectionsDisjoint | frontend/lib/api.ts:319-332 | In every run two refresh sections are never both outstanding and younger than 15 s |
| RefreshLock.OldSectionsCanOverlap | frontend/lib/api.ts:308-332 | The bound is tight: after exactly 15 s a second tab can enter while the first is still inside |
| RefreshLock.BlockedExactlyByFreshHolder | frontend/lib/api.ts:323-326 | A tab is turned away if and only if another tab's outstanding request is younger than 15 s, so a crashed holder blocks nobody longer |
| RefreshLock.LiveLockOnlySettledByOwner | frontend/lib/api.ts:334-342 | In every run a live lock is changed only when its owner's own request settles |
| RefreshLock.SingleFlight | frontend/lib/api.ts:380-389 | In every run each tab has at most one outstanding refresh request |
| RefreshLock.CallersShareTheResult | frontend/lib/api.ts:381-383 | A call made during a request joins it, and every caller that went on has the result of the request it joined, which is its own tab's |
| RefreshLock.PromiseWhileStarterWaits | frontend/lib/api.ts:429-433 | Over every run a tab has a shared promise for a request if and only if the caller that started that request has not gone on yet, so the promise is always cleared |
| RefreshLock.CallExactly | frontend/lib/api.ts:380-389 | Over every run a call joins the request whose starter still waits; without one it is turned away exactly if another tab has an outstanding request younger than 15 s, and otherwise starts a request |
| RefreshLock.ResultsComeFromSettling | frontend/lib/api.ts:391-427 | Over every run a request has a result if and only if some possible step settled it with that result |
| RefreshLock.CrashedNeverSettles | frontend/lib/api.ts:391-427 | A request of a tab that has crashed stays as it was, whatever follows |
| RefreshLock.TurnedAwayGetsElsewhere | frontend/lib/api.ts:385-387 | A caller that was turned away gets what the other tab's refresh brought, and nothing else changes |
| RefreshLock.RefreshCoordinator.GetRefreshLock | frontend/lib/api.ts:292-317 | Returns the lock exactly if it is live, and removes garbage and expired entries |
| RefreshLock.RefreshCoordinator.AcquireRefreshLock | frontend/lib/api.ts:319-332 | Succeeds exactly if no other tab holds a live lock, and then stores an own one for 15 s |
| RefreshLock.RefreshCoordinator.ReleaseRefreshLock | frontend/lib/api.ts:334-342 | Leaves what the release of the model leaves |
| RefreshLock.RefreshCoordinator.RefreshAccessToken | frontend/lib/api.ts:380-389 | The synchronous part is the call step: join, turn away, or acquire and start |
| RefreshLock.RefreshCoordinator.Respond | frontend/lib/api.ts:391-427 | A response or failure releases the lock and settles the request |
| RefreshLock.RefreshCoordinator.Return | frontend/lib/api.ts:429-433 | A caller that goes on receives the result, and the starter clears the shared promise |
| AuthorizedFetch.FetchBounded | frontend/lib/api.ts:516-581 | For any options and any responses the recursion ends, with requests, refreshes and sleeping time bounded by the two counters left |
| AuthorizedFetch.CallBounded | frontend/lib/api.ts:436-581 | One call sends at most 6 requests and sleeps at most 12 s for GET and HEAD, and at most 2 requests without sleep otherwise |
| AuthorizedFetch.SixRequestsHappen | frontend/lib/api.ts:522-581 | A server that answers busy, busy, 401, busy, busy makes the call reach both limits |
| AuthorizedFetch.AnswerIsTheLastReply | frontend/lib/api.ts:494-581 | The answer is the reply to the last request, every earlier reply was a 401 or 503, and only a lost session makes up an answer |
| AuthorizedFetch.RetriesAre | frontend/lib/api.ts:516-581 | A chain retries a 503 only for GET and HEAD and a 401 at most once, never for a retry, a call that skips refreshing, or the refresh endpoint; a made-up 401 means the session was lost before that request |
| AuthorizedFetch.NothingSentExactly | frontend/lib/api.ts:460-473 | A call sends nothing if and only if its endpoint is not public and the session is invalidated, or the token is due, may be refreshed, and cannot be |
| AuthorizedFetch.NeverSentWhenInvalidated | frontend/lib/api.ts:460-462 | No request of a chain, the later ones included, leaves while the session is invalidated, unless its endpoint is public |
| AuthorizedFetch.GoesOnExactly | frontend/lib/api.ts:516-581 | A chain goes on after a reply if and only if it is the first 401 of a call that may retry it and the refresh succeeds, or an overload answer to a GET or HEAD with fewer than two busy retries since and a wait of at most 3 s; it sleeps exactly as long as those answers ask for |
| AuthorizedFetch.RefreshedExactly | frontend/lib/api.ts:464-532 | The token is refreshed before each request for which it is due and after a 401 that may be retried, and once more if the chain ends because a refresh failed, never otherwise |
| AuthorizedFetch.DelaySpec | frontend/lib/api.ts:558-567 | A busy server is given 300 ms, then 600 ms, or what a usable Retry-After header says, and never less than nothing |
| SupportSessions.OpeningsAndLocksBalance | frontend/lib/supportEncryptionSession.ts:51-57 | In every history the first-time remembers minus the lock events of a key are 1 exactly while the key is stored, and 0 otherwise |
| SupportSessions.AnswerIsTheReference | frontend/lib/supportEncryptionSession.ts:117-149 | A context is returned exactly if it is the last one remembered, not cleared since, and no gap between activities, the present one included, reached 4 h |
| SupportSessions.FourHours | frontend/lib/supportEncryptionSession.ts:13-13 | After any history a context that was just remembered is given out exactly for less than 14,400,000 ms |
| SupportSessions.DoAtKey | frontend/lib/supportEncryptionSession.ts:51-159 | What every event does to any one key, its stored session, lock events and openings, whatever else the table holds |
| SupportSessions.TimersCannotBeObserved | frontend/lib/supportEncryptionSession.ts:59-95 | Histories that differ only in timer callbacks and visibility changes give the same answers |
| SupportSessions.EachIsBulk | frontend/lib/supportEncryptionSession.ts:77-95 | The loops over the table give the same result in whatever order they visit the keys |
| SupportSessions.SessionTable.LockSession | frontend/lib/supportEncryptionSession.ts:51-57 | Removes the key and its timer, with one lock event exactly if the key was there; armed timers match stored sessions again |
| SupportSessions.SessionTable.ScheduleExpiry | frontend/lib/supportEncryptionSession.ts:59-75 | Replaces the timer of one session so that armed timers and sessions correspond one to one; the table is unchanged |
| SupportSessions.SessionTable.TimerGoesOff | frontend/lib/supportEncryptionSession.ts:61-74 | A firing timer finds its own session, and locks it or arms it again |
| SupportSessions.SessionTable.GetUnlocked | frontend/lib/supportEncryptionSession.ts:117-130 | Returns the answer of the model, with its step, and keeps timers and sessions in correspondence |
| SupportSessions.SessionTable.RememberUnlocked | frontend/lib/supportEncryptionSession.ts:132-149 | The remember step; the timer of a replaced session is cleared |
| SupportSessions.SessionTable.ClearSession | frontend/lib/supportEncryptionSession.ts:156-159 | The clear step for one key |
| SupportSessions.SessionTable.ClearAllSessions | frontend/lib/supportEncryptionSession.ts:151-154 | The clear step for all keys, by a loop over a copy of the keys |
| SupportSessions.SessionTable.ExpireSessionsWithoutExtending | frontend/lib/supportEncryptionSession.ts:90-95 | The loop locks exactly the expired sessions |
| SupportSessions.SessionTable.ExpireOrExtendSessions | frontend/lib/supportEncryptionSession.ts:77-88 | The loop locks the expired sessions and extends the others |
| Reconnect.AtMostOneActivity | frontend/lib/realtime.ts:46-148 | In every run at most one of connection attempt, live socket and armed timer exists; before clean-up exactly one does unless "disconnected" is shown; after it no timer is armed |
| Reconnect.ConnectedIsShownExactly | frontend/lib/realtime.ts:102-133 | "Connected" is shown if and only if a socket that has opened lasts and the effect is not cleaned up |
| Reconnect.AttemptIsShownExactly | frontend/lib/realtime.ts:61-77 | Over every run "connecting" is shown exactly while an attempt goes on before the first loss or opening, and "reconnecting" exactly while an attempt or wait goes on later |
| Reconnect.MountedIs | frontend/lib/realtime.ts:46-77 | A mounted effect starts one ticket request, or with no token shows "disconnected" and starts nothing |
| Reconnect.WaitsExactly | frontend/lib/realtime.ts:61-139 | A step arms a timer and logs a wait if and only if, before clean-up, a ticket request fails or its body is unusable, or a socket closes; openings are logged too and nothing else is |
| Reconnect.AttemptsExactly | frontend/lib/realtime.ts:64-101 | A socket is made exactly from the usable body of a ticket response before clean-up, and a further ticket requested exactly by a timer that finds a token |
| Reconnect.CallAfter | frontend/lib/realtime.ts:82-88 | Each call goes from ticket to body with a good response, and is over with a bad one or with its body |
| Reconnect.SocketAfter | frontend/lib/realtime.ts:102-148 | Each socket opens once; an error, or the clean-up, starts to close it, whichever it is; its close event closes it; nothing else touches it |
| Reconnect.TimerAfter | frontend/lib/realtime.ts:64-147 | Each timer fires once, and the clean-up clears it if it has not fired |
| Reconnect.WaitsGrow | frontend/lib/realtime.ts:61-69 | In every run a wait after n waits since the last opening lasts min(500 * 2^n, 10000) ms |
| Reconnect.LongestWaitFrom | frontend/lib/realtime.ts:68-68 | The longest wait is used from the sixth wait on and not before |
| Reconnect.NothingStartsAfterCleanup | frontend/lib/realtime.ts:143-148 | After clean-up no run starts a request, socket or timer, and only "disconnected" is shown |
| Reconnect.GivesUpExactly | frontend/lib/realtime.ts:71-97 | Before clean-up a step leaves nothing going on if and only if it finds no token or no URL |
| Reconnect.GivenUpForGood | frontend/lib/realtime.ts:71-97 | Once nothing goes on, no further step changes anything until the clean-up |
| Reconnect.OneConnectionAcrossRemounts | frontend/lib/realtime.ts:39-149 | However often the effect is remounted, at most one socket of all effects is opening or open, and it is the last effect's |
| Reconnect.ShownExactly | frontend/lib/realtime.ts:126-149 | From agreement, a step makes the shown state differ from the last effect's if and only if it closes a socket left behind by an earlier effect |
| Reconnect.ShownOverRuns | frontend/lib/realtime.ts:28-149 | Over every run of mounts and remounts, what is shown is the last effect's state if and only if no such late close came since that effect spoke last; otherwise it is "disconnected" |
| Reconnect.LateCloseHidesTheConnection | frontend/lib/realtime.ts:126-131 | There is a run in which "disconnected" is shown over an open connection |
| Reconnect.RealtimeEffect.constructor | frontend/lib/realtime.ts:46-142 | Mounting gives the mounted state of the model |
| Reconnect.RealtimeEffect.ScheduleReconnect | frontend/lib/realtime.ts:61-69 | Arms a timer with the current delay and doubles the delay up to the limit, unless stopped or already armed |
| Reconnect.RealtimeEffect.Connect | frontend/lib/realtime.ts:71-86 | Starts a ticket request unless stopped or without a token |
| Reconnect.RealtimeEffect.OnTicketResponse | frontend/lib/realtime.ts:82-87 | The step of the ticket response, with the invariant |
| Reconnect.RealtimeEffect.OnTicketBody | frontend/lib/realtime.ts:87-139 | The step of the response body in its five outcomes, with the invariant |
| Reconnect.RealtimeEffect.OnClose | frontend/lib/realtime.ts:126-133 | The closing step, which schedules a reconnection unless stopped |
| Reconnect.RealtimeEffect.OnTimer | frontend/lib/realtime.ts:64-67 | The timer step, which connects again |
| Reconnect.RealtimeEffect.CleanUp | frontend/lib/realtime.ts:143-148 | The clean-up step |
| SessionMigration.LinkedExactly | backend/alembic/versions/20261012_0013_linked_session_hardening.py:52-63 | The first statement links a token if and only if it is open and its family is a candidate, and then to that family's session |
| SessionMigration.CandidateExactly | backend/alembic/versions/20261012_0013_linked_session_hardening.py:15-33 | The family of an unbound, unrevoked, unexpired token gets a session if and only if all such tokens of its tenant and family have one user and no session has that tenant and family |
| SessionMigration.CreatedRowIs | backend/alembic/versions/20261012_0013_linked_session_hardening.py:34-51 | That session has the tenant, user and family of the token, the legacy device name and label, and as its times the first and the last creation among those tokens |
| SessionMigration.WithoutDashesSpec | backend/alembic/versions/20261012_0013_linked_session_hardening.py:44-44 | The device name keeps every character of the family but the dashes |
| SessionMigration.OldSessionsRevokedExactly | backend/alembic/versions/20261012_0013_linked_session_hardening.py:74-83 | A session from before is revoked, with the reason, if and only if it is not revoked yet and an open token has its tenant, user and family; otherwise it stays the same |
| SessionMigration.LinksAgree | backend/alembic/versions/20261012_0013_linked_session_hardening.py:34-63 | Every token that was linked agrees with its session on tenant, user and family, and the session is a new one |
| SessionMigration.NoOpenTokenLeft | backend/alembic/versions/20261012_0013_linked_session_hardening.py:67-96 | After both statements no unexpired, unrevoked token is without a session |
| SessionMigration.ClosedTokensUntouched | backend/alembic/versions/20261012_0013_linked_session_hardening.py:59-94 | Tokens that were linked, revoked or expired are exactly as before |
| SessionMigration.OpenTokensResolved | backend/alembic/versions/20261012_0013_linked_session_hardening.py:14-96 | Every open token is linked if its family is a candidate and revoked with the reason otherwise; nothing else of it changes |
| SessionMigration.FamiliesStayUnique | backend/alembic/versions/20261012_0013_linked_session_hardening.py:27-51 | Tenant and family stay unique among the sessions |
| SessionMigration.NewSessionsSurvive | backend/alembic/versions/20261012_0013_linked_session_hardening.py:74-83 | No session created by the first statement is revoked by the second |
| SessionMigration.VersionsRiseByOne | backend/alembic/versions/20261012_0013_linked_session_hardening.py:96-111 | The access-token version rises by exactly one for each user that is affected, and for nobody else |
| SessionMigration.RowsExist | backend/alembic/versions/20261012_0013_linked_session_hardening.py:15-51 | Whatever new identifiers are generated, rows to insert with the required least and latest times exist |
| SessionMigration.AuthTables.Migrate | backend/alembic/versions/20261012_0013_linked_session_hardening.py:114-124 | The two statements in order give the migrated tables |
| ModerationHistory.DirectMutationFails | backend/alembic/versions/20261012_0012_collection_moderation_audit.py:76-96 | With the flag off, a direct update or delete succeeds if and only if it hits no action row; the triggers never make a report deletion or a user's erasure fail, the latter failing if and only if another table restricts it |
| ModerationHistory.TriggerExactly | backend/alembic/versions/20261012_0012_collection_moderation_audit.py:76-93 | The trigger lets an update through if and only if it clears an actor, changes no other column, and comes from inside another trigger or with the flag on; a deletion exactly with the flag on |
| ModerationHistory.FailsExactly | backend/alembic/versions/20261012_0012_collection_moderation_audit.py:40-96 | With the flag off a statement fails if and only if it repeats an identifier, lacks a referenced row, changes action rows directly, or erases a restricted user |
| ModerationHistory.StatementOnRow | backend/alembic/versions/20261012_0012_collection_moderation_audit.py:76-116 | What each successful statement does to an existing row: it goes if its report is deleted, by name or because its reporter is erased; otherwise it loses its actor with the user, or stays the same |
| ModerationHistory.RowGoesWithItsReport | backend/alembic/versions/20261012_0012_collection_moderation_audit.py:40-45 | Whatever the statement, an action row is gone afterwards if and only if its report is |
| ModerationHistory.NewRowIs | backend/alembic/versions/20261012_0012_collection_moderation_audit.py:95-96 | An action row appears only by its insertion, and as it was inserted |
| ModerationHistory.StatementOnReport | backend/app/documents/models/collection_security.py:123-178 | What each successful statement does to any report: it appears by its insertion, goes by its deletion or with its reporter, changes its status when that is set, loses an erased reported user, and is the same otherwise |
| ModerationHistory.StatementOnUser | backend/app/documents/models/collection_security.py:123-178 | A user appears only by its insertion and goes only by its erasure |
| ModerationHistory.ErasureLosesExactly | backend/app/documents/models/collection_security.py:123-125 | Erasing a user that no other table protects removes an action row if and only if the user filed its report, whoever acted |
| ModerationHistory.ErasureLosesHistory | backend/app/documents/models/collection_security.py:123-125 | For every committed row there is a run of one such erasure that loses it |
| ModerationHistory.HistoryIsAppendOnly | backend/alembic/versions/20261012_0012_collection_moderation_audit.py:76-116 | Over every run of transactions, savepoints and rollbacks a committed row changes at most by losing its actor, unless its report's deletion, direct or with its reporter, was committed, and the flag is off between statements |
| ModerationHistory.NoDeletionNoLoss | backend/alembic/versions/20261012_0012_collection_moderation_audit.py:87-91 | In a run that neither deletes the report of a row nor erases its reporter, the row is never lost |
| ModerationHistory.OnlyCommitCommits | backend/alembic/versions/20261012_0012_collection_moderation_audit.py:97-116 | Committed tables change in no step but the commit of a transaction that has not failed |
| ModerationHistory.AllOrNothing | backend/alembic/versions/20261012_0012_collection_moderation_audit.py:97-116 | For any statements a transaction commits the tables after all of them, each run with the flag off, or nothing if one fails or it is rolled back |
| ModerationHistory.SavepointRestores | backend/alembic/versions/20261012_0012_collection_moderation_audit.py:97-116 | Rolling back to a savepoint restores tables and flag, whatever statements, failures, savepoints and partial rollbacks lie in between |
| ModerationHistory.ModerationTables.DeleteReportRows | backend/alembic/versions/20261012_0012_collection_moderation_audit.py:111-113 | Deleting reports row by row removes exactly those and leaves the flag on exactly if there was one |
| ModerationHistory.ModerationTables.CascadeRows | backend/alembic/versions/20261012_0012_collection_moderation_audit.py:87-90 | The cascade removes exactly the doomed rows; the trigger lets each one through |
| ModerationHistory.ModerationTables.DeleteReportsStatement | backend/alembic/versions/20261012_0012_collection_moderation_audit.py:97-116 | The statement with its triggers is the atomic report deletion, and ends with the flag off |
| ModerationHistory.ModerationTables.ClearActor | backend/alembic/versions/20261012_0012_collection_moderation_audit.py:79-86 | Clearing the actor row by row changes exactly the rows of that user, each let through as a nested update |
| ModerationHistory.ModerationTables.EraseUserStatement | backend/app/documents/models/collection_security.py:123-178 | The deletion of a user with its three foreign keys, the nested report deletion and its triggers included, is the atomic erasure; a restricted one fails and changes nothing; the flag ends off |
| Roles.ResolvePermissions | backend/app/auth/permissions.py:127-144 | The loop returns the union of the canonical roles' permissions and the direct ones, whatever order it visits the roles in |
| Roles.ProgramNames | backend/app/auth/roles.py:5-13 | The four role names differ, and each old name means its new one |
| Roles.LowerSpec | backend/app/auth/roles.py:11-13 | Each capital letter becomes its small one, and nothing else changes |
| Roles.NameInAnySpelling | backend/app/auth/roles.py:11-13 | White space around a role name, and capitals, do not change what it means |
| Roles.ProgramGrants | backend/app/auth/permissions.py:7-124 | The old and the new name of a role give the same permissions, and every name that means admin gives those of super_admin |
| Roles.AdminPermission | backend/app/auth/permissions.py:7-124 | Deleting users is permitted by a role if and only if its name means admin |
| Roles.UserPermissions | backend/app/auth/permissions.py:72-124 | Readers and members have the permissions of users, and an editor has exactly one more |
| Roles.QueryHolders | backend/app/auth/permissions.py:7-124 | Questions may be asked by admins, editors, users, readers, members and the service role, and by no other role |
| Roles.AdvancedHolders | backend/app/auth/permissions.py:7-124 | Advanced organisation is for admins and editors only |
| Roles.ModerationHolders | backend/app/auth/permissions.py:62-71 | Reported collections are decided on by the collection moderator only |
| Roles.UpgradeHeld | backend/alembic/versions/20260407_0019_simplify_human_roles.py:19-71 | The upgrade's effect on who holds which role, by name, and on the roles that exist; the tables stay consistent |
| Roles.DowngradeHeld | backend/alembic/versions/20260407_0019_simplify_human_roles.py:74-127 | The downgrade's effect on who holds which role, by name, and on the roles that exist |
| Roles.UpgradeHoldsExactly | backend/alembic/versions/20260407_0019_simplify_human_roles.py:36-71 | After the upgrade a user holds user if and only if user or reader was held, admin if and only if admin was, or super_admin while there is an admin role, any other role as before, and neither old one |
| Roles.DowngradeHoldsExactly | backend/alembic/versions/20260407_0019_simplify_human_roles.py:74-117 | After the downgrade a user holds reader if and only if reader or user was held, super_admin if and only if it or admin was, any other role, admin included, as before, and never user |
| Roles.UpgradeDescribes | backend/alembic/versions/20260407_0019_simplify_human_roles.py:20-35 | Every role keeps its name; the named roles and user get the new descriptions, and every other role stays the same |
| Roles.DowngradeDescribes | backend/alembic/versions/20260407_0019_simplify_human_roles.py:75-127 | Likewise; a role that was there keeps its description when it is inserted again |
| Roles.UpgradeLeavesNoOldRole | backend/alembic/versions/20260407_0019_simplify_human_roles.py:63-71 | After the upgrade nobody holds reader or super_admin and the roles are gone |
| Roles.UpgradeUndoesDowngrade | backend/alembic/versions/20260407_0019_simplify_human_roles.py:36-117 | Upgrade after downgrade gives everybody exactly the roles they held, where nobody held an old role |
| Roles.DowngradeKeepsPermissions | backend/alembic/versions/20260407_0019_simplify_human_roles.py:74-127 | The downgrade leaves every user's effective permissions unchanged, on every table |
| Roles.UpgradeKeepsPermissionsExactly | backend/alembic/versions/20260407_0019_simplify_human_roles.py:19-71 | The upgrade leaves a user's effective permissions unchanged if and only if the admin role exists, the user is no super_admin, or has another role that means admin |
| Roles.LoneSuperAdminIsStripped | backend/alembic/versions/20260407_0019_simplify_human_roles.py:36-71 | There is a consistent table without an admin role in which the upgrade takes a permission from a super_admin |
| Roles.RoleTables.DeleteRoles | backend/alembic/versions/20260407_0019_simplify_human_roles.py:63-71 | The two DELETEs remove the assignments of the named roles and the roles |
| Roles.RoleTables.UpgradeDatabase | backend/alembic/versions/20260407_0019_simplify_human_roles.py:19-71 | The statements in order give the upgraded tables |
| Roles.RoleTables.DowngradeDatabase | backend/alembic/versions/20260407_0019_simplify_human_roles.py:74-127 | The statements in order give the downgraded tables |
| KeepOldest.OneRowForEachEvent | backend/alembic/versions/20261011_0003_webhook_delivery_hardening.py:38-54 | After the DELETE the constraint holds, and every event keeps exactly its oldest row |
| KeepOldest.NothingToDeleteExactly | backend/alembic/versions/20261011_0003_webhook_delivery_hardening.py:38-54 | The DELETE removes nothing if and only if the constraint holds already; a second run removes nothing |
| KeepOldest.RowStaysExactly | backend/alembic/versions/20261011_0003_webhook_delivery_hardening.py:38-49 | A row stays, unchanged, if and only if it has no event, or every other row with its tenant, subscription and event is younger, or as old with a greater identifier |
| KeepOldest.DeliveryTable.DeleteDuplicates | backend/alembic/versions/20261011_0003_webhook_delivery_hardening.py:38-49 | The self-join leaves exactly the rows without an event and the oldest row of each event |
| KeepOldest.ListingExists | backend/alembic/versions/20260402_0017_normalize_collection_owners.py:17-22 | Every table has an ordered listing of its eligible rows, each once |
| KeepOldest.FirstMembers | backend/alembic/versions/20260402_0017_normalize_collection_owners.py:16-23 | Keeping the first row of each collection in the ordered listing finds exactly the earliest eligible members |
| KeepOldest.ExactlyOneOwner | backend/alembic/versions/20260402_0017_normalize_collection_owners.py:24-33 | A collection without an owner but with an eligible member gets exactly one owner, the earliest eligible member |
| KeepOldest.OwnersAfterwards | backend/alembic/versions/20260402_0017_normalize_collection_owners.py:24-33 | Afterwards a collection has an owner if and only if it had an eligible member; collections with an owner, or without an eligible member, are unchanged |
| KeepOldest.PromotedExactly | backend/alembic/versions/20260402_0017_normalize_collection_owners.py:15-34 | A row changes, and then only to the role of owner, if and only if it is a member or shared one, its collection has no owner, and no such row of it is older |
| KeepOldest.NormalizedTwice | backend/alembic/versions/20260402_0017_normalize_collection_owners.py:15-34 | A second run changes nothing |
| KeepOldest.DowngradeIsUndoneExactly | backend/alembic/versions/20260402_0017_normalize_collection_owners.py:37-43 | Downgrade and upgrade give the table back if and only if the owners are exactly the earliest eligible members |
| KeepOldest.PermissionTable.NormalizeOwners | backend/alembic/versions/20260402_0017_normalize_collection_owners.py:15-34 | The UPDATE gives the normalized table |
| PdfText.ThreePassesAreOne | backend/scripts/build_week5_benchmark_dataset.py:14-15 | The three replace passes equal one pass that escapes each special character once |
| PdfText.DecodeEncode | backend/scripts/build_week5_benchmark_dataset.py:35-35 | Every text comes back from its encoding through a strict UTF-8 decoder (RFC 3629) |
| PdfText.ReaderStopsAtWritersParenthesis | backend/scripts/build_week5_benchmark_dataset.py:27-33 | For every string, a reader of ISO 32000-1 section 7.3.4.2 started after the opening parenthesis stops at the writer's closing one, and reads the bytes with line ends normalised |
| PdfText.NormalEolExact | backend/scripts/build_week5_benchmark_dataset.py:14-15 | Normalising line ends changes nothing if and only if there is no carriage return |
| PdfText.RoundTripExactly | backend/scripts/build_week5_benchmark_dataset.py:14-35 | For every string the reader returns exactly its bytes and stops at the writer's parenthesis if and only if it has no carriage return |
| PdfFile.PaddedSpec | backend/scripts/build_week5_benchmark_dataset.py:60-61 | The padded number decodes to its value, has at least ten digits, and exactly ten if and only if it is below 10^10 |
| PdfFile.EntryIsTwentyBytes | backend/scripts/build_week5_benchmark_dataset.py:60-61 | An entry has 20 bytes if and only if the offset is below 10^10 |
| PdfFile.WriteObjects | backend/scripts/build_week5_benchmark_dataset.py:52-56 | The loop appends every object and notes the byte position at which each begins |
| PdfFile.WriteTable | backend/scripts/build_week5_benchmark_dataset.py:58-61 | The loop prints the cross-reference section with one entry for each object |
| PdfFile.WriteFile | backend/scripts/build_week5_benchmark_dataset.py:52-67 | The file is the header, the objects, the table and the trailer |
| PdfFile.EveryObjectIsFound | backend/scripts/build_week5_benchmark_dataset.py:52-67 | For any objects with offsets below 10^10, startxref decodes to the position of the xref keyword and the entry of each object to the byte where it begins (sections 7.5.4 and 7.5.5) |
| PdfFile.FileFrame | backend/scripts/build_week5_benchmark_dataset.py:52-66 | Around any objects stand the header, the head of the table with the free entry, and the trailer with size, root, start and end marker |
| PdfFile.StreamObjectRead | backend/scripts/build_week5_benchmark_dataset.py:45-49 | For any bytes, the printed Length is the stream's byte count and gives the stream back, even if it contains the word endstream (section 7.3.8.2) |
| PdfFile.StreamFrame | backend/scripts/build_week5_benchmark_dataset.py:45-49 | The keywords and the Length that stand around the bytes of a stream |
| PdfContent.WriteStream | backend/scripts/build_week5_benchmark_dataset.py:24-35 | The loop over the lines builds the content stream of the page |
| PdfContent.StreamRead | backend/scripts/build_week5_benchmark_dataset.py:24-35 | Following those operators (section 9.4) shows exactly the lines, in order, in one font, each on a line of its own from (50, 780) downwards |
| PdfContent.PlacedAt | backend/scripts/build_week5_benchmark_dataset.py:24-33 | Line i lies 14 * i units below the first one |
| PdfPage.PageLinesSpec | backend/scripts/build_week5_benchmark_dataset.py:19-27 | For every text the page has 1 to 40 lines of at most 120 characters, none with a line break |
| PdfPage.SplitLinesFirst | backend/scripts/build_week5_benchmark_dataset.py:19-19 | Up to its first line end a text is a line of its own, the rest is split in the same way, and a carriage return with its line feed is one end |
| PdfPage.SplitLinesLast | backend/scripts/build_week5_benchmark_dataset.py:19-19 | What follows the last line end is a line exactly if it is not empty |
| PdfPage.SplitLinesOfJoined | backend/scripts/build_week5_benchmark_dataset.py:19-19 | Lines joined by line feeds come apart again, without an empty last one |
| PdfPage.LineBreakExactly | backend/scripts/build_week5_benchmark_dataset.py:19-19 | The characters that end a line, one by one |
| PdfPage.PageLineIs | backend/scripts/build_week5_benchmark_dataset.py:19-27 | For every text line i of the page is the i-th line of the text that is not all white space, stripped and cut after 120 characters; there are all of them but at most 40, and a fixed line if there is none |
| PdfPage.CleanLinesStay | backend/scripts/build_week5_benchmark_dataset.py:19-27 | From 1 to 40 lines of at most 120 characters without breaks or outer white space, none of them empty, are printed as they are |
| PythonText.StripSpec | backend/scripts/build_week5_benchmark_dataset.py:19-19 | Stripping takes away white space at both ends, all of it and nothing else, and gives nothing exactly for a text of white space |
| PythonText.SpaceExactly | backend/scripts/build_week5_benchmark_dataset.py:19-19 | The characters that stripping removes, one by one |
| PdfPage.BuildSimpleTextPdf | backend/scripts/build_week5_benchmark_dataset.py:18-67 | For every text the builder returns a file from which a reader gets the lines of the page and their places |
| PdfPage.PageComesBack | backend/scripts/build_week5_benchmark_dataset.py:18-67 | Finding object 5 through the table, taking its stream by the Length and following its operators gives the lines of the page in their places |
| PdfPage.LineComesBack | backend/scripts/build_week5_benchmark_dataset.py:18-67 | For every text each line of the page is read back as the text it was, in font F1 of 11 units, at x 50 and y 780 - 14 * i |
| PdfPage.EntriesOfThePage | backend/scripts/build_week5_benchmark_dataset.py:37-67 | For every text each of the five entries has 20 bytes and leads to its object, which begins with its own number |
| Csv.TableComesBack | frontend/lib/table-export.ts:48-52 | A reader of RFC 4180 section 2 gives back every table whose rows each have a cell, quotes, commas and line breaks included |
| Csv.ComesBackExactly | frontend/lib/table-export.ts:48-52 | A table comes back if and only if every row has a cell |
| Csv.PrinterInjective | frontend/lib/table-export.ts:48-52 | Two such tables with the same text are the same |
| Csv.EmptyRowIsLost | frontend/lib/table-export.ts:48-52 | A table with one empty row prints like another table |
| ChunkHeaders.LatestHeaderSpec | backend/scripts/backfill_chunk_metadata.py:13-17 | The function finds the stripped last header line, none exactly if no line is a header, and never an empty text |
| ChunkHeaders.HeaderExactly | backend/scripts/backfill_chunk_metadata.py:16-16 | A line is a header if and only if it begins with one or two number signs and a blank |
| ChunkHeaders.HeaderIsTheLatest | backend/scripts/backfill_chunk_metadata.py:28-43 | On sorted chunks the running header is the latest one at or before the chunk in its document, and PROSE if there is none |
| ChunkHeaders.RefreshedSpec | backend/scripts/backfill_chunk_metadata.py:37-56 | Header and page are right afterwards, all other keys are as before, a second refresh changes nothing, and an update is needed exactly if something changes |
| ChunkHeaders.PageSpec | backend/scripts/backfill_chunk_metadata.py:49-49 | Four chunks make a page: chunk n is on the page p with 4 * (p - 1) <= n < 4 * p |
| ChunkHeaders.EqualPageStays | backend/scripts/backfill_chunk_metadata.py:49-52 | A stored page number that Python deems equal is kept, a float or a truth value included; a text or a missing one is replaced |
| ChunkHeaders.RefreshMetadata | backend/scripts/backfill_chunk_metadata.py:37-52 | The branches compute the refreshed metadata, and report an update exactly if it differs |
| ChunkHeaders.BackfillMetadata | backend/scripts/backfill_chunk_metadata.py:20-56 | The one pass gives every chunk its refreshed metadata and counts exactly the changed ones |
| ChunkHeaders.EveryChunkIsRight | backend/scripts/backfill_chunk_metadata.py:25-56 | After the pass over sorted chunks each one has the latest header at or before it in its document, or PROSE, and its page; all other keys are as before |
| ChunkHeaders.SecondRunChangesNothing | backend/scripts/backfill_chunk_metadata.py:32-56 | A second run changes no chunk |
| ChunkHeaders.DifferencesCounted | backend/scripts/backfill_chunk_metadata.py:54-56 | The count is the number of chunks whose metadata differs |
| PythonText.LinesSpec | backend/scripts/backfill_chunk_metadata.py:15-15 | Splitting at line breaks gives pieces without breaks whose join is the text |

## Left out

- Notes: the theorems about sequences of appends leave out appends with a recovery copy, which are stated one at a time; fields that are neither absent nor strings are not modelled, and letters outside ASCII have no lower case.
- WriteLock: the check for a blank conversation id comes before the lock, so no such call arrives; a failed write leaves the record as it was; writes and deletions that bypass the lock are not modelled.
- ChatHistory: the collation of `localeCompare` is an arbitrary ranking of texts in which equal ranks compare as equal; mapping messages to their public form is left out.
- RefreshLock: the lock operations are one step each; what a tab learns from another tab's broadcast is an arbitrary result; the branches without a `window` are left out.
- AuthorizedFetch: URLs, headers, toasts, redirects and request time limits are left out; sleeping times are real numbers.
- SupportSessions: an armed timer carries the expiry of its session as its due time, but may fire earlier or later than that, or never; listeners that call back into the table during a lock event, and the reason carried by the event, are left out.
- Reconnect: an open event of a socket that is already closing is excluded, as the WebSocket standard's ready states suggest; messages, the stored cursor and the switch that disables the effect in end-to-end runs are left out.
- SessionMigration: identifiers from `gen_random_uuid` are given, new and different; policies, indexes and the downgrade are left out.
- ModerationHistory: whether a row of another table forbids to delete a user is an input of the statement; such keys are those of documents, queries, usage records, data deletions and the organisation tables. Cascades from collections, messages and tenants, direct writes to the setting, and row-level security are left out; a statement is atomic with the triggers and cascades that it causes.
- Roles: other columns of the two tables and letters outside ASCII in role names are left out; the theorems hold for any description texts.
- KeepOldest: other columns than those that the statements read; the listing that the database orders is given to the method, and shown to exist.
- PdfText: characters are Unicode scalar values, and how the font encoding shows bytes above 127 is not part of the model.
- PdfFile: the reader takes object 5 as the page's stream and does not follow the references from the trailer's root, so the dictionaries of the first four objects are constants of the model.
- PdfContent: the reader knows the five operators that the page uses and gives where each line begins; comments, arrays and dictionaries in content streams are not read.
- Csv: the byte-order mark and the download are left out.
- ChunkHeaders: the chunks' metadata is one array that the pass updates in place, where the source updates one object per chunk; other keys than the two are opaque, and numbers are integers or reals.
- The web server, ingestion, key derivation, document export and the remaining scripts delegate to services outside the modelled files.
