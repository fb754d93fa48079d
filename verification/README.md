# penczREQ: a verified model of the stateful core

This project models the parts of the request server whose correctness depends on
whole runs, and proves what every run of them keeps. Each source file that updates
tables in place is a class with the tables as fields; every method is proved equal to
a step function on values, and the theorems are about those steps, over all runs.
Tables are maps and sets, AUTOINCREMENT ids are counters that never go back, a
transaction is one atomic step, and time is a whole second that never decreases
(the in-memory limiter has a real-valued clock).

The step functions are not the last word on what a call does. Each main method also
states its answer and every row it writes in figures and fields, without the step
functions; `PushRetries`, `RequestContracts`, `ListContracts`, `NotificationWording` and
`EnvContracts` hold these statements and their proofs for the larger parts.

- `Throttle.dfy`, `LoginProtection.dfy`, `LoginProtectionRuns.dfy`: the public login
  throttle. Its failure window is anchored at the first failure, blocks last 15 min,
  1 h or 24 h. Interleaved prunes are invisible, ten minutes hold at most 18 counted
  failures of one address and two more per success of it, and blocks climb one
  escalation ladder.
- `ControlThrottle.dfy`, `ControlThrottleRuns.dfy`: the throttle of the control panel,
  whose window restarts at every failure; the same three results with a bound of 5.
- `Sessions.dfy`, `ControlSessions.dfy`: both session stores, with the 60 second
  granularity of `last_seen_at`.
- `PushQueue.dfy`, `PushGuarantees.dfy`, `PushRetries.dfy`, `PushDrain.dfy`,
  `PushService.dfy`: the Web Push queue. A round works on a snapshot while subscriptions may be dropped under
  it; a stale item whose delivery row a foreign key refuses aborts the batch. The
  sender is an arbitrary function from items to answers.
- `PushInterleaved.dfy`: the same queue with the snapshot, each send and each recording
  as separate steps and any other call in between.
- `Requests.dfy`, `RequestInvariants.dfy`, `RequestContracts.dfy`, `RequestHistory.dfy`,
  `RequestTheorems.dfy`, `Repository.dfy`: requests, likes, withdrawals, accounts and
  their notifications, with the cascades of the schema. Besides the tables the model
  keeps the log of all notifications ever created. An account listens when it did not
  switch the kind of notification off. The classes of `Repository.dfy` and
  `PushService.dfy` carry the joint invariants as `Valid()` through every public method.
- `RateLimiter.dfy`: the sliding window limiter against a full log.
- `ListPipeline.dfy`, `ListTheorems.dfy`, `ListContracts.dfy`, `ListMethods.dfy`: sorting,
  grouping and paging on the server, validation, sorting and grouping in the browser.
- `PlainText.dfy`, `NotificationText.dfy`, `NotificationRoundTrip.dfy`,
  `NotificationWording.dfy`: rendering of request notifications and recognition of
  legacy ones.
- `EnvFile.dfy`, `EnvTheorems.dfy`, `EnvContracts.dfy`, `EnvMethods.dfy`: reading and
  updating an env file.
- `Wrappers.dfy`, `RequestStatus.dfy`, `Arithmetic.dfy`: shared vocabulary.

## Where the code does less than one might expect

- The bound of 18 failures in ten minutes fails for one kind of starting state: a live
  window whose failures were all forgiven by earlier successes allows 19.
  `LoginProtectionRuns.EighteenUnlessForgiven` says that this is the only kind, and
  `LoginProtectionRuns.NineteenIsReached` gives a run into it and on to 19.
- `_prune_locked` applies the caller's cutoff to every identity, and the windows that
  `request_app/main.py:669-871` uses differ. `RateLimiter.FullLogExactlyWhenHarmless`
  says exactly which runs cannot be told from a full log, and
  `RateLimiter.SearchesFreeTheVictim` gives a run of 10004 calls that can.
- A withdrawn author can regain a like by adding the title again
  (`RequestTheorems.WithdrawnAuthorRegainsLike`), so "takes part" means a like and no
  withdrawal.
- A round of deliveries does not see what happens to an endpoint inside it: a transfer
  (`PushInterleaved.TransferInsideRound`), a removal by another call
  (`RemovalInsideRound`), or the removal by its own 410 (`DropInsideRound`).
  `PushInterleaved.SendIsAddressedUnlessChanged` says that a send goes to an account that
  holds the endpoint by a grant older than the notification exactly when the endpoint
  was neither granted nor removed since the snapshot.
- An update of an env file rewrites the first line of a key, but the last one is read
  (`EnvTheorems.UpdateIsHidden`); `EnvTheorems.UpdateIsRead` gives the exact condition.
- A legacy notification whose label ends like a season, or whose reason repeats the
  words in front of it, is recognised with other values
  (`NotificationRoundTrip.TitleLikeASeasonIsLost`, `ReasonLikeADeletionIsLost`);
  `NotificationRoundTrip.ClassifyUndoesRender` is the equivalence.

## Model

| member | source | states |
|---|---|---|
| LoginProtection.LoginProtection.Check | request_app/auth_protection.py:70-91 | a blocked address is told the seconds left; a free one waits 0 seconds below three failures of the account in its open ten minutes, then 1, 2, 4, 8 and from the seventh on 15 |
| LoginProtection.LoginProtection.UpsertFailure | request_app/auth_protection.py:93-120 | a failure within ten minutes of the first one counts one more, a later one starts again at 1; the rest of the row and all other rows stay |
| LoginProtection.LoginProtection.RecordFailure | request_app/auth_protection.py:122-160 | nothing changes for a blocked address; otherwise account and address count one more, and the tenth of the address in its ten minutes empties its count, blocks it for 900, 3600 or 86400 seconds one level up within a day of the last block, and is told so |
| LoginProtection.LoginProtection.RecordSuccess | request_app/auth_protection.py:162-173 | the account row goes, two failures of an address that is not blocked are forgiven, all other rows stay |
| LoginProtection.LoginProtection.Prune | request_app/auth_protection.py:190-196 | a row stays exactly when it was touched in the last 604800 seconds or its block has not ended, and stays as it was |
| LoginProtection.StepKeepsValid | request_app/auth_protection.py:93-196 | every call keeps all rows well formed: an address stays below the threshold, an account is never blocked, a block outlasts the window that caused it, an escalation ends within a day of the last change |
| LoginProtectionRuns.PruningIsInvisible | request_app/auth_protection.py:70-196 | removing all prunes of a run, or inserting one before it, changes no gate, delay, retry time or block level |
| LoginProtectionRuns.AtMostEighteenFailures | request_app/auth_protection.py:94-148 | without a success of the address, a half-open ten minutes hold at most 18 counted failures (19 from a forgiven window) |
| LoginProtectionRuns.EighteenUnlessForgiven | request_app/auth_protection.py:94-173 | the bound of 18 holds for all runs from a table if and only if its window of the address is not a forgiven live one |
| LoginProtectionRuns.EighteenIsReached | request_app/auth_protection.py:94-148 | from an empty table some run counts 18 failures in ten minutes |
| LoginProtectionRuns.NineteenIsReached | request_app/auth_protection.py:94-173 | a failure and a success of another account lead from an empty table to a forgiven window, and from there some run without a success counts 19 |
| LoginProtectionRuns.AtMostTwoMorePerSuccess | request_app/auth_protection.py:94-173 | with n successes of the address in the run, a half-open ten minutes hold at most 18 + 2n counted failures (19 + 2n from a forgiven window) |
| LoginProtectionRuns.TwoMorePerSuccessAreReached | request_app/auth_protection.py:94-173 | for every n, some run from an empty table with n successes counts 18 + 2n |
| LoginProtectionRuns.FailuresAroundClosing | request_app/auth_protection.py:94-148 | from a live window with n failures some run without a success counts 19 - n in the ten minutes that start now, and no such run counts more |
| LoginProtectionRuns.FailuresAreSlowedDown | request_app/auth_protection.py:85-160 | failures of one account inside ten minutes, none from or leading to a blocked address, are answered 0, 0, 1, 2, 4, 8, 15, 15, … seconds in this order |
| LoginProtectionRuns.SlowdownFollowsFailures | request_app/auth_protection.py:85-160 | in the ten minutes from the first failure of an account, whatever else is called, every gate of a free address answers the seconds of the number of failures recorded so far |
| LoginProtectionRuns.SuccessEndsSlowdown | request_app/auth_protection.py:85-173 | after a success of the account, until its next recorded failure, no gate slows it down |
| LoginProtectionRuns.BlocksFormLadder | request_app/auth_protection.py:134-148 | over any run from an empty table the blocks of an address never overlap, last 15 min, 1 h or 24 h, follow min(3, level + 1) within 24 h of the previous block and 1 otherwise, and level 3 is followed by 1 |
| Throttle.PrunableIsInvisible | request_app/auth_protection.py:190-196 | a row old enough to be pruned shows a later call nothing that a missing row would not |
| Throttle.ContinuesIsLadder | request_app/auth_protection.py:134-148 | blocks that each follow the one before form a ladder: disjoint, with the right lengths, level 1 after level 3 |
| ControlThrottle.ControlStore.LoginGate | request_app/control_store.py:316-322 | the remaining seconds of the block of an address, 0 for a free one |
| ControlThrottle.ControlStore.RecordFailure | request_app/control_store.py:324-356 | nothing changes for a blocked address; otherwise its window starts again with one failure more, and the fifth in a row, each within ten minutes of the one before, blocks it for 900, 3600 or 86400 seconds; no other row changes |
| ControlThrottle.ControlStore.ClearFailures | request_app/control_store.py:358-360 | the row of the address goes, nothing else |
| ControlThrottle.ControlStore.Prune | request_app/control_store.py:389-392 | exactly the unblocked old throttle rows go |
| ControlThrottleRuns.PruningIsInvisible | request_app/control_store.py:316-392 | in any run, removing all prunes changes no answer |
| ControlThrottleRuns.AtMostFiveFailures | request_app/control_store.py:324-356 | without a clear of the address, any half-open ten minutes hold at most 5 counted failures |
| ControlThrottleRuns.BlocksFormLadder | request_app/control_store.py:332-356 | the same ladder for the control panel, without a clear of the address |
| Sessions.SessionStore.CreateSession | request_app/security.py:86-96 | a new session with its expiry, under a token never used before |
| Sessions.SessionStore.GetSessionUser | request_app/security.py:99-123 | an unexpired session of an active user seen less than idle seconds ago is answered, and its last-seen time moves exactly when it is 60 s old; an idle one is deleted; nothing else changes |
| Sessions.SessionStore.PruneExpiredSessions | request_app/security.py:141-145 | exactly the expired and idle sessions go |
| Sessions.PruningIsInvisible | request_app/security.py:99-145 | in any run, removing all prunes changes no lookup |
| Sessions.SteadySessionsLive | request_app/security.py:86-123 | a session whose lookups are at most idle - 60 s apart answers its user until absolute expiry and nobody afterwards |
| Sessions.IdleSessionsAreRefused | request_app/security.py:99-123 | a session left alone for idle or longer since a lookup is refused, whatever happened meanwhile |
| ControlSessions.ControlSessionStore.SessionUser | request_app/control_store.py:277-305 | an unexpired session seen less than idle seconds ago is answered to its own address, and its last-seen time moves exactly when it is 60 s old; idleness or another address deletes it |
| ControlSessions.ControlSessionStore.PruneSessions | request_app/control_store.py:385-388 | exactly the expired sessions go |
| ControlSessions.SteadySessionsLive | request_app/control_store.py:277-305 | the same guarantee for lookups from the session's own address |
| ControlSessions.ForeignLookupEndsSession | request_app/control_store.py:277-305 | one lookup from another address is refused and ends the session in every continuation |
| ControlSessions.IdleSessionsAreRefused | request_app/control_store.py:277-305 | a session left alone for idle or longer is refused from any address |
| ControlSessions.GoneStaysGone | request_app/control_store.py:277-305 | a token without a row never gets one again |
| PushServiceObject.PushService.SaveSubscription | request_app/push.py:138-218 | the account's own endpoint is refreshed without a change; another account's goes over with a new watermark and without its deliveries; a new one gets a row; refused with 16 endpoints or for an unknown account; the invariant of the queue stays |
| PushServiceObject.PushService.RemoveSubscription | request_app/push.py:220-227 | exactly the account's row of the endpoint and its deliveries go; the answer says whether there was one; the invariant stays |
| PushServiceObject.PushService.CreateTestNotification | request_app/push.py:229-249 | a new notification for an existing account |
| PushServiceObject.PushService.PendingDeliveries | request_app/push.py:264-293 | the snapshot, in order: of the first limit (1 to 500) pairs that are undelivered, sent fewer than 3 times, of an active account and above the watermark, those whose last attempt is 60 s ago after one attempt and 120 s after two |
| PushServiceObject.PushService.RecordAttempt | request_app/push.py:311-339 | one attempt more at this time, delivered or not, or a refusal by a foreign key |
| PushServiceObject.PushService.RecordTerminalFailure | request_app/push.py:341-367 | 3 attempts, undelivered, or a refusal by a foreign key |
| PushServiceObject.PushService.DeliverPending | request_app/push.py:373-432 | the items of the snapshot are sent in order with the sender's answers, each once, until one is aborted; a completed batch counts its successful sends; afterwards no pair has more than 3 sends or 1 success, and the invariant stays |
| PushServiceObject.PushService.HandleItem | request_app/push.py:391-432 | what each answer writes: delivered when accepted; the row goes at 404 and 410; given up at any other 4xx than 408, 425 and 429; one attempt more and still undelivered for those three, no status, any other status and other errors; no row or note, no record, and the batch ends |
| PushRetries.HandleSettles | request_app/push.py:404-417 | the same about the queue's step, for every item, stale ones included |
| PushRetries.QueuedUntilThreePass | request_app/push.py:138-432 | over every run of rounds and other calls, a pair whose notification and row stand is queued if and only if its account is active and got the endpoint before the notification, all its answers were passing ones, and it was sent fewer than three times |
| PushRetries.RoundSendsInOrder | request_app/push.py:373-432 | a round sends the items of its snapshot in order, each once and with the sender's answer for it, and stops only at an item it aborts |
| PushRetries.BatchIsSnapshot | request_app/push.py:251-293 | the snapshot holds exactly the rested pairs among the first pending ones, in the order of the query |
| PushRetries.SubscribeSaves | request_app/push.py:138-218 | the refusals and the rows of a saved endpoint, field by field |
| PushQueue.PendingRowsArePending | request_app/push.py:264-284 | the query lists only pairs that are neither delivered nor used up, of active accounts, above the watermark |
| PushQueue.PendingFromLists | request_app/push.py:264-284 | the query lists every pending pair, once, ordered by notification and then subscription |
| PushGuarantees.StepKeepsInv | request_app/push.py:138-432 | every step keeps references, the cap of 16, watermarks that separate exactly what came before an endpoint was granted, and attempt counts that bound the sends |
| PushGuarantees.HandleKeepsSendable | request_app/push.py:373-432 | handling one item, even one that drops a subscription, leaves every later item of the snapshot due |
| PushGuarantees.AtMostOnceDelivery | request_app/push.py:138-432 | over every run each notification and endpoint see at most 3 sends, at most 1 successful, to the account the endpoint was last granted to, for a notification created after that grant |
| PushGuarantees.EndpointsAreCapped | request_app/push.py:138-218 | over every run references resolve and no account holds more than 16 endpoints |
| PushInterleaved.InterleavedAtMostOnce | request_app/push.py:138-432 | however other calls come between the snapshot, the sends and the recordings: at most 3 sends and 1 success per notification and endpoint, none after a success, and a send about a notification at least as new as the endpoint's latest grant goes to the account of that grant |
| PushInterleaved.InterleavedUntilThreePass | request_app/push.py:138-432 | however other calls come between the snapshot, the sends and the recordings: a pair that stands and is not in flight is queued if and only if its account is active and got the endpoint before the notification, all its answers were passing ones, and it was sent fewer than three times |
| PushInterleaved.NextKeepsGood | request_app/push.py:264-432 | each single step of a round and each other call keep references, caps, watermarks, and rows that cover all sends but the one in flight |
| PushInterleaved.SendIsAddressedUnlessChanged | request_app/push.py:373-432 | an item that still has to be sent goes to an account that holds its endpoint by a grant older than the notification, if and only if the endpoint was neither granted nor removed since the snapshot, by another call or by a 404 or 410 of the round; and then its row stands |
| PushInterleaved.SendIsAddressedUnlessGranted | request_app/push.py:373-432 | the next send goes to the account the endpoint was last granted to, about a notification newer than that grant, if and only if the endpoint was not granted since the snapshot |
| PushInterleaved.OtherStepChanges | request_app/push.py:138-227 | each other call leaves the rows and the grant of an endpoint as they are unless it is one it grants or removes, and then the grant is new or no row holds it |
| PushInterleaved.TransferInsideRound | request_app/push.py:138-432 | a run in which an endpoint is transferred after the snapshot and the old account's notification is still sent to it |
| PushInterleaved.RemovalInsideRound | request_app/push.py:220-432 | a run in which an endpoint is removed after the snapshot and the notification is still sent although no row holds it |
| PushInterleaved.DropInsideRound | request_app/push.py:369-432 | an uninterrupted round whose first item gets a 410: the second item of the dropped row is still sent |
| PushInterleaved.DeliverIsARound | request_app/push.py:373-432 | a round without interruptions is the atomic round |
| PushDrain.RoundSpends | request_app/push.py:251-293 | a round at least 120 s after the last attempts strictly lowers the sum of attempts left, if anything is pending |
| PushDrain.QueueDrains | request_app/push.py:251-432 | from any reachable state, 3 spaced rounds per pending pair empty the queue, whatever the sender answers and whatever the limit |
| PushDrain.StretchesSpend | request_app/push.py:251-432 | for rounds of any spacing, every stretch of 120 s that ends in a round spends an attempt, until the queue is empty |
| PushDrain.QueueDrainsByTheClock | request_app/push.py:251-432 | from any reachable state, rounds of any spacing empty the queue once 3 stretches of 120 s per pending pair have passed |
| PushDrain.WorkerDrains | request_app/main.py:109-115 | a worker that comes round at least every g seconds empties the queue within 3 * (120 + g) seconds per pending pair |
| PushDrain.NewNotificationsArePending | request_app/push.py:138-293 | a new notification of an active account is pending for every endpoint it holds |
| RepositoryObject.Repository.Create | request_app/repository.py:446-532 | a title that is there gets the account's like and is answered with its id and state; a new one gets the next id, is active exactly when released by today, waits, and has its author's like; exactly the other active administrators who listen hear of it, once, with a linked note; the joint invariant stays |
| RepositoryObject.Repository.Toggle | request_app/repository.py:643-693 | a like can be taken back for ten seconds, not by the author; a like tells exactly the author, with one linked note, when he is somebody else, did not withdraw, was not told of it before and listens; nothing else is told; the answer holds the number of likes and the deadline; every refusal; the invariant stays |
| RepositoryObject.Repository.WithdrawRequest | request_app/repository.py:695-727 | the request with all that hangs on it goes when nobody else likes it, and then interested nobody else; otherwise the like becomes a withdrawal; nobody is told; every refusal; the invariant stays |
| RepositoryObject.Repository.SetRequestStatus | request_app/repository.py:729-745 | an active request gets the status and keeps the rest of its row; exactly its author and likers who did not withdraw and listen hear of it, once, with linked notes; silence when it has the status already |
| RepositoryObject.Repository.CompleteRequest | request_app/repository.py:747-761 | an active request is completed with its time and administrator; its listeners hear of it, each once; refusals |
| RepositoryObject.Repository.RestoreRequest | request_app/repository.py:763-777 | a completed request is active and waiting again, without its completion; its listeners hear of it, each once; refusals |
| RepositoryObject.Repository.DeleteActiveRequest | request_app/repository.py:779-797 | its listeners hear of it, each once, with notes without a link; then the row, its likes, withdrawals and history go, and older notes lose their link; a reason of 1 to 500 characters; refusals |
| RepositoryObject.Repository.PromoteDueRequests | request_app/repository.py:909-924 | exactly the upcoming requests released by today become active and waiting, nothing else of any row changes; their listeners hear of it, each once, by request and account; the answer is their number, and none is due afterwards |
| RepositoryObject.Repository.NotifyRequestChange | request_app/repository.py:405-444 | a notice for author and likers without a withdrawal who did not switch them off, each with one note |
| RepositoryObject.Repository.SetUserActive | request_app/repository.py:185-200 | the flag of one account changes, unless it is the last active administrator or unknown |
| RepositoryObject.Repository.CreateAccount | request_app/repository.py:145-161 | a new active account under a free valid name, or the refusal |
| RepositoryObject.Repository.RenameUser | request_app/repository.py:202-212 | one account gets the name, unless the name is invalid, the account unknown or the name another's; the invariant stays |
| RepositoryObject.Repository.TransferAdminRole | request_app/repository.py:214-223 | exactly the named active account is administrator afterwards |
| RepositoryObject.Repository.DeleteAccount | request_app/repository.py:233-297 | exactly the requests that only the account likes go, and interested nobody else; then its own rows go, other requests stay without its name as author or completer, notes of the removed requests lose their link; refusals; the invariant stays |
| Requests.NotifyFromIsNotified | request_app/repository.py:405-444 | announcing a change creates exactly the notices of the interested users and changes nothing else |
| RequestContracts.NotifyInterestedTells | request_app/repository.py:405-444 | announcing a change tells exactly the authors and likers who did not withdraw and listen, each once in ascending order, and stores one note per notice under the next ids |
| RequestContracts.LikeIsTold | request_app/repository.py:643-693 | exactly when a toggle tells the author, and the one note it stores |
| RequestContracts.RolesAreEnforced | request_app/repository.py:71-99 | with an administrator nothing changes; without one the preferred account becomes an active administrator, or a new account of that name does |
| RequestContracts.DoomedAreRemoved | request_app/repository.py:276-278 | deleting requests one after the other removes exactly them with all that hangs on them |
| RequestInvariants.StepKeepsInv | request_app/repository.py:71-924 | every step keeps: references resolve, completed iff completed_at is set, upcoming implies pending, media keys unique, an author has a like or a withdrawal, a withdrawal belongs to the author, account names distinct, at most one administrator and that one active |
| RequestHistory.EveryRunKeepsInv | request_app/database.py:15-148 | the joint invariant holds after every run from an empty database |
| RequestHistory.StepMoves | request_app/repository.py:71-1016 | every step tells only whom it may tell, each once, never reuses an id and never undoes a withdrawal or a told like |
| RequestTheorems.NothingReturnsToUpcoming | request_app/repository.py:729-924 | over any run a request that is not upcoming stays so; its media key and creation time stay, its author stays or is forgotten |
| RequestTheorems.OneActiveAdmin | request_app/repository.py:71-297 | once an administrator exists, every later state has exactly one, and that one is active |
| RequestTheorems.RemovalLeavesNobodyBehind | request_app/repository.py:233-297 | in every reachable state, a request removed by a withdrawal or an account deletion interests nobody but the one who leaves |
| RequestTheorems.WithdrawnAuthorHearsNothing | request_app/repository.py:405-727 | after a withdrawal no continuation ever notifies the author about the request again |
| RequestTheorems.WithdrawnAuthorRegainsLike | request_app/repository.py:486-490 | a run of six calls from an empty database after which an author has a like and a withdrawal, and is not interested |
| RequestTheorems.AnnouncedAtMostOnce | request_app/repository.py:643-924 | over every run each liker of a request is announced to its author at most once, and each user hears of its promotion at most once |
| RequestTheorems.FirstLikeDecides | request_app/repository.py:643-693 | over every run: a like that was not told before is told exactly once, whatever follows, if the author is somebody else, did not withdraw and listens, and never otherwise |
| RequestTheorems.PromotionDecides | request_app/repository.py:405-924 | over every run: when a request is promoted, an account hears of its promotion exactly once, whatever follows, if it is author or liker, did not withdraw and listens, and never otherwise |
| RateLimiter.SlidingWindowLimiter.Check | request_app/rate_limit.py:13-26 | an identity is the bucket with the first 256 characters of the key; with fewer than limit entries in the window the call is entered and answered 0, and more than 10000 identities are trimmed; otherwise the answer is the whole seconds until the oldest entry leaves, at least 1, and exactly 1 below two seconds |
| RateLimiter.SlidingWindowLimiter.PruneLocked | request_app/rate_limit.py:28-34 | every identity loses exactly its oldest entries up to the caller's cutoff, and exactly those left without an entry go |
| RateLimiter.FullLogExactlyWhenHarmless | request_app/rate_limit.py:13-34 | over any run, calls of an identity at some point of the run are answered otherwise than by a full log if and only if some prune of the run found an entry of it between the start of its window and the prune's cutoff |
| RateLimiter.SearchesFreeTheVictim | request_app/rate_limit.py:13-34 | a run of 10004 calls: 10000 searches of other identities between three calls of one identity and a fourth, with the limits of two callers: all four are accepted although a full log refuses the fourth |
| RateLimiter.FreshLimiterAnswersAsFullLog | request_app/rate_limit.py:13-34 | over any run from an empty limiter in which no prune forgets a live call of the identity, the answers are those of a full log |
| RateLimiter.AnswersAsFullLog | request_app/rate_limit.py:13-34 | the same from any state that remembers the live calls |
| RateLimiter.LatePrunesAreHarmless | request_app/rate_limit.py:28-34 | prunes whose window is at least the identity's forget none of its live calls |
| RateLimiter.PruneForgetsExactly | request_app/rate_limit.py:28-34 | a prune keeps all that an identity's window holds if and only if no entry lies between its cutoff and the prune's |
| RateLimiter.ForeignPruneDecides | request_app/rate_limit.py:13-34 | after a foreign prune the next call is accepted iff fewer than limit entries lie after the later of the two cutoffs |
| RateLimiter.ShortPruneAdmits | request_app/rate_limit.py:13-34 | a full identity is let in after a foreign prune if and only if that prune forgot one of its live calls |
| RateLimiter.AcceptedCallsAreSpread | request_app/rate_limit.py:13-34 | accepted calls that are limit apart in the log are at least a window apart in time |
| RateLimiter.RetryIsHonoured | request_app/rate_limit.py:18-24 | a rejected caller who comes back one second after the time told, with nothing accepted meanwhile, gets through |
| RateLimiter.RetryIsNotTooLong | request_app/rate_limit.py:18-24 | a rejected caller who was told more than a second and comes back before that time is rejected again, unless a prune forgot one of its live calls |
| ListMethods.SortItems | request_app/repository.py:613-623 | the in-place sorts return the same rows in the mode's order, and with distinct ids the only such list |
| ListMethods.PaginatedRequests | request_app/repository.py:586-641 | a page for sizes 25, 50 and 100 only: rows of the asked status, whole groups, each row as often as in the table; in the mode's order; counts of the groups of the matching and of all rows; as many pages as they need; the page asked for or the nearest; it passes the browser's checks |
| ListMethods.GroupSortedItems | request_app/static/app.js:248-271 | the groups built in place: every row in one group, a group holds a whole series with ascending seasons or one film, and groups come by their best placed row |
| ListContracts.EveryRowIsOnOnePage | request_app/repository.py:586-641 | each row with the asked status is on exactly one of the pages 1..total, as often as in the table, whatever page is asked for |
| ListContracts.PageIsListed | request_app/repository.py:586-641 | what a page shows of the rows and what its numbers count, for every request |
| ListContracts.PagesAreInOrder | request_app/repository.py:605-641 | whatever is on a later page follows some row of each series of an earlier one in the mode's order |
| ListContracts.ValidationMeans | request_app/static/app.js:44-52 | the browser's checks hold if and only if the size is on offer, the page is one of the pages, no more filtered groups than groups are counted, and the pages are as many as the groups need |
| ListContracts.ClientSortOrders | request_app/static/app.js:216-228 | the browser orders any list by the mode, and rows the mode does not tell apart stay as they came |
| ListContracts.BrowserShowsGroups | request_app/static/app.js:248-271 | any list of rows is shown as whole series with ascending seasons and single films, each row once, groups by their best placed row |
| ListTheorems.SortsGiveTheTotalOrder | request_app/repository.py:613-623 | for each mode, a list is the result if and only if it is a permutation ordered by mode key, creation time and id |
| ListTheorems.PagesPartition | request_app/repository.py:605-641 | every item is on exactly one of the pages 1..total, together with all of its series |
| ListTheorems.PageSizes | request_app/repository.py:625-632 | every page but the last holds exactly page_size groups, none is empty unless the list is |
| ListTheorems.PagesPassValidation | request_app/static/app.js:32-63 | every page of the server passes the browser's checks |
| ListTheorems.ResortIsIdentity | request_app/static/app.js:216-228 | the browser's comparator leaves a list of the server as it is |
| ListTheorems.BrowserShowsThePage | request_app/static/app.js:216-271 | the browser shows exactly the server's slice of groups, in order, each with all its items |
| ListTheorems.ClientGroupsAre | request_app/static/app.js:248-271 | each group holds all items of its key, seasons in ascending order |
| NotificationText.Migrate | request_app/notification_i18n.py:325-366 | rows without an event get the classifier's, all others stay; the answer is the number of rows that gained an event |
| NotificationRoundTrip.ClassifyUndoesRender | request_app/notification_i18n.py:22-322 | for all eight events and both languages, classifying a rendered legacy payload gives back event and payload if and only if the label does not end like a season (and is one line before a real season) and the reason does not hold its separator |
| NotificationRoundTrip.TitleLikeASeasonIsLost | request_app/notification_i18n.py:172-179 | a completed film called "X — season 1" is not recognised as itself, in either language |
| NotificationRoundTrip.ReasonLikeADeletionIsLost | request_app/notification_i18n.py:199-322 | a deletion whose reason quotes the words in front of it is not recognised as itself, in either language |
| NotificationRoundTrip.LinkedRowIsRecognised | request_app/notification_i18n.py:182-322 | a row that still links to a request is recognised whatever its label, with the request's titles and season |
| NotificationRoundTrip.SeasonIsSplit | request_app/notification_i18n.py:172-179 | a rendered season is split off again exactly when the label is one line |
| NotificationRoundTrip.LastSplitIsFound | request_app/notification_i18n.py:199-204 | a greedy pattern ends at its separator if and only if the value behind does not hold it again |
| NotificationWording.RenderSays | request_app/notification_i18n.py:22-154 | each of the eight events is rendered in either language as its full sentence with the label and the other value, or not at all when that value is missing |
| NotificationWording.LabelSays | request_app/notification_i18n.py:107-117 | the label is the title in the reader's language, else the original one, else a dash, with the season in the reader's language |
| NotificationWording.RecognisedIsWording | request_app/notification_i18n.py:207-322 | whatever is recognised is one of these sentences under a title of its event, and the payload holds the values of the sentence |
| NotificationWording.SplitSays | request_app/notification_i18n.py:172-179 | a label is split only into one line, a season word of either language, digits and perhaps a line end |
| EnvMethods.ReadEnv | deploy/truenas/installer.py:399-408 | the lines; a key is read exactly when some line that is no comment sets it, with the value of the last such line, without space and then quotes around it |
| EnvMethods.UpdateEnv | deploy/truenas/installer.py:411-437 | the first line of each updated key is replaced, all other lines stay, updates without a line follow in their order behind one empty line; the file is written only when the text differs |
| EnvMethods.RewriteLines | deploy/truenas/installer.py:419-430 | the first line of each updated key is replaced, and what is left are the updates without a line, in order |
| EnvTheorems.SplitUndoesContent | deploy/truenas/installer.py:400-434 | written lines are read back as the same lines |
| EnvTheorems.KeysAgree | deploy/truenas/installer.py:402-425 | the reader and the updater see the same key on every line |
| EnvTheorems.UpdateReads | deploy/truenas/installer.py:399-437 | after an update a key has its new value unless it stood on several lines, and every other key its old one |
| EnvTheorems.UpdateIsRead | deploy/truenas/installer.py:399-437 | reading after an update gives the old map overridden by the updates if and only if each updated key stands on one line at most and its value survives stripping and unquoting, or its last line already says so |
| EnvTheorems.RepeatedKeyHidesUpdate | deploy/truenas/installer.py:399-437 | a file with two lines of one key still reads the second one after an update |
| EnvTheorems.UpdateIsHidden | deploy/truenas/installer.py:399-437 | the concrete file A=1, A=2 still reads 2 after setting A to 3 |
| EnvTheorems.UpdatingTwice | deploy/truenas/installer.py:411-437 | the same update a second time changes no character, even with repeated keys |
| EnvTheorems.OtherLinesStay | deploy/truenas/installer.py:419-427 | every line keeps its place and text, unless it is the first one of an updated key |
| EnvContracts.LinesMakeText | deploy/truenas/installer.py:400 | splitting a text loses nothing but one line break behind each line |
| EnvContracts.ValuesAreRead | deploy/truenas/installer.py:399-408 | what reading the lines gives, key by key |
| EnvContracts.UpdateIsEdited | deploy/truenas/installer.py:411-437 | what the new text is, line by line |

## Left out

- HTTP routes, cookies, CSRF, templates, the service worker, TMDB, poster files, `webpush` itself, VAPID keys, encryption and password hashing: plumbing and foreign libraries.
- SQLite's locking and thread races between a read and a later write: every method is one atomic step.
- Several clock readings inside one call: each call reads the clock once, in whole seconds; a retry time may differ by a second from one computed with microseconds.
- The 10000-row eviction of the throttle table and operator resets and listings: both may delete live rows.
- Normalisation of client scopes and account names, `last_failure_at` and display keys of throttle rows: they do not influence later answers.
- The escalation ladder and the bound of 5 exclude clears of the control panel's own row; the public bound excludes successes of the address.
- Bulk deletions of sessions (password change, deactivation, transfer of the admin role) appear as a logout or as a deactivated user; tokens are counters.
- PushServiceObject.PushService.SaveSubscription: does not model the validation of the endpoint and keys, nor the stored keys, because they do not influence the queue.
- PushServiceObject.PushService.DeliverPending: is one atomic step; other calls between two items of a batch are the subject of PushInterleaved. A service without keys, which delivers nothing, is not modelled.
- PushGuarantees.AtMostOnceDelivery: is about atomic rounds; PushInterleaved.InterleavedAtMostOnce is the statement without that assumption.
- A process that stops between a send and its recording: the send would be repeated later.
- Payload text of pushes and VAPID initialisation: not part of the queue.
- RepositoryObject.Repository.Create: does not model titles (nor their refresh on existing rows), posters and title search, because participation does not depend on them.
- RepositoryObject.Repository.DeleteAccount: does not model the returned counts.
- RepositoryObject.Repository.SetUserActive: session and push rows deleted on deactivation are part of the push and session models, not of this one.
- RepositoryObject.Repository.TransferAdminRole: does not model that all sessions are deleted.
- RepositoryObject.Repository.NotifyRequestChange: notifies in ascending order of user ids; the source's order is that of a query without an ORDER BY.
- Read flags of notifications: deleting any single notification is a step, whatever its flag. Broadcasts and password changes are not steps.
- RateLimiter.SlidingWindowLimiter.Check: requires a limit of at least 1; with 0 the source raises IndexError on an empty window.
- ListMethods.PaginatedRequests: page, sort and filter arrive typed and creation times are numbers; the status filter stands for the active state only.
- NotificationText.SplitSeason: decimal digits are ASCII, the source's `\d` also accepts other decimal digits.
- NotificationText.Migrate: the classifier is a parameter, and the release version that an application update gains is left out; application updates, the push test and broadcasts, which have no request label, are not classified by this model.
- EnvMethods.UpdateEnv: file modes, ownership and the atomic replacement of the file; a text has its line ends already translated.
