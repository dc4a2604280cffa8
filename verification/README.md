# hefest-api: a Dafny model of its notification outbox, registrations, rate limiter and refresh tokens

The project models the parts of hefest-api whose correctness does not show in any single
function, and proves what holds in every run of them.

- **Outbox delivery.** `Outbox.dfy` is the `notification_jobs` table and the SQL statements of the
  worker; `Delivery.dfy` is the protocol that any number of workers, reapers and heartbeats play on
  it, step by step, with crashes, arbitrary send outcomes and writes that commit although the
  worker sees an error. `DeliveryInvariant.dfy` holds the inductive invariant,
  `DeliveryTheorems.dfy` what follows for every run, `DeliveryExamples.dfy` two runs that show the
  bounds are sharp. `Consumer.dfy` is `_drain` and what it calls, as imperative code, with lease
  renewals, faults, send outcomes, stop signals and the interleaving of a batch's tasks left
  arbitrary; its class
  invariant says that the system is where a run of that protocol has led, so the theorems hold of
  it. `Heartbeat.dfy` is the renewal loop, shown to take steps of that protocol, `Wakeup.dfy` the wake flag and the
  LISTEN connection.
- **Registrations and events.** `Registration.dfy` gives the transactions and the interleaving of
  concurrent requests, `RegistrationService.dfy` the service functions working on the tables,
  `Waitlist.dfy` the waitlist order, positions and pages. `RegistrationLog.dfy`,
  `RegistrationSeats.dfy` and `EventCancellation.dfy` prove the run properties,
  `RegistrationReplies.dfy` what each request answers and writes;
  `RegistrationExamples.dfy` shows concrete runs: a race, and two in which a condition is missing.
- **Rate limiter.** `RateLimit.dfy`: the Lua script against the rule that forgets nothing.
- **Sending a batch.** `SendSchedule.dfy` bounds the time of one batch under the semaphore,
  `MailerPool.dfy` covers the SMTP client pool and error classification.
- **Refresh tokens.** `RefreshTokens.dfy`: rotation chains.

`dafny verify dfyconfig.toml` checks everything.

## How to read it

Every operation is a function on values; where the program updates something in place there is
also a class whose methods do that and are proved against the function. Concurrency is a step
system: a committed statement, or a local action, is one atomic step, and a run is any sequence of
enabled steps. Assumptions that come with this: one non-decreasing clock; worker ids, registration
ids, sorted-set members and tokens are fresh; row locks serialize transactions on one event; an
exception that leaves the consumer ends the worker process (it stops claiming at once and may
still finish what it started). Times are integers, scores and windows of the rate limiter are
reals.

Three promises of the repository's own text do not hold as written; the model follows the code and
proves for each exactly when it holds:

- A cancelled event does not stay cancelled for good. `publish_event` reads the draft without a
  lock and saves later; if the event is cancelled in between, the save brings it back, it takes
  registrations again, and a second cancellation fails on stored idempotency keys
  (`RegistrationExamples.StalePublishRevives`). An event stays cancelled, with its registrations
  frozen, exactly as long as no such late save lands on it (`EventCancellation.CancelledIsFrozen`),
  and cancelling fails on a stored key exactly if someone active was active at such a save
  (`EventCancellation.CancelFailsIff`). That everyone active at a cancellation is told exactly once
  does hold in every run, late saves included (`EventCancellation.FanOutComplete`).
- First come, first served ends when an organizer raises the capacity: nobody is promoted then, and
  the next newcomer is seated ahead of the waitlist (`RegistrationExamples.RaiseLetsOvertake`). The
  order holds up to a point of a run exactly if no registration before it found a seat free while
  others waited (`RegistrationSeats.NoOvertakingIff`), and people wait only for a full event exactly
  if no update left seats free while people waited (`RegistrationSeats.WaitingMeansFullIff`); a run
  that does not raise the capacity meets both.
- The heartbeat module says that when `lease_lost` is set every lease has been reaped. A worker can
  still hold a fresh row then (`DeliveryExamples.LeaseLostWithFreshRow`); what protects the row is
  the fence. All its rows may be reaped exactly if it claimed each of them, and last committed a
  renewal, more than the idle limit ago (`DeliveryTheorems.LeaseLostAllStaleIff`).

## Model

| member | source | states |
|---|---|---|
| Outbox.ClaimSelectionUnique | hefest/worker/claim.py:119-125 | order and limit determine the claimed set: two claims on the same table and clock cannot take different rows |
| Outbox.JobTable.First | hefest/worker/claim.py:122-124 | the earliest of a set of rows by due time, then id |
| Outbox.JobTable.SelectDue | hefest/worker/claim.py:119-125 | takes pending rows whose due time has come only, as many as the limit allows, by due time and then id |
| Outbox.JobTable.ClaimBatch | hefest/worker/claim.py:117-144 | exactly the first due rows become processing under the worker with fresh heartbeat and one more attempt; each is returned with its new attempt number; no other row changes |
| Outbox.JobTable.ReapStale | hefest/worker/claim.py:179-194 | returns at most the limit of stale rows to pending without touching attempts or due time; a short count means none was left |
| Outbox.JobTable.Finalize | hefest/worker/claim.py:211-282 | one fenced write: reports whether the fence held, changes that row column by column as the finalizer says, and nothing otherwise |
| Outbox.JobTable.RenewHeartbeat | hefest/worker/heartbeat.py:61-70 | renews exactly the processing rows the worker holds and counts them |
| Outbox.BackoffQuadruples | hefest/worker/claim.py:285-298 | the first retry waits the base, each further one four times as long as the one before |
| DeliveryInvariant.InvStep | hefest/worker/consumer.py:300-374 | every step of every worker keeps the protocol invariant: row and claim history agree, each task belongs to one claim its worker has not repeated, running workers' rows are in their batches |
| DeliveryInvariant.FenceIsClaim | hefest/worker/claim.py:23-33 | whenever the fence matches a worker's task, the row still carries the attempt number of that task and its claim is open |
| DeliveryTheorems.FenceNeverConfusesClaims | hefest/worker/consumer.py:157-184 | in every run, a finalizer that changes anything changes one row, still under the claim its task was created for |
| DeliveryTheorems.EachClaimFinalizedOnce | hefest/worker/consumer.py:131-156 | two effective finalizers of a job belong to different claims, the later to the later one, retries with unknown commits included |
| DeliveryTheorems.FinalizedAsOutcome | hefest/worker/consumer.py:245-276 | in every run an effective finalizer ends the row by the outcome of its last send: completed iff accepted, failed iff permanent or out of attempts, else pending again after base * 4^(attempt - 1), with its error |
| DeliveryTheorems.BackoffRespected | hefest/worker/claim.py:119-121 | in every run a claim after a retry of attempt a comes at least base * 4^(a - 1) later |
| DeliveryTheorems.ClaimsTakeDueRows | hefest/worker/claim.py:117-131 | in every run a claim takes only pending rows that are due, and gives them a fresh lease |
| DeliveryTheorems.NearExactlyOnce | hefest/worker/consumer.py:245-276 | accepted sends of a job never exceed one more than its reaps (no more than its reaps while it is pending or failed), and a completed job had one |
| DeliveryTheorems.TerminalForever | hefest/worker/claim.py:211-282 | completed and failed rows never change again |
| DeliveryTheorems.AttemptAccounting | hefest/worker/claim.py:127-130 | attempts count the claims of the run, exceed the limit only by reaps, and backoff retries stay below the limit |
| DeliveryTheorems.NoAbandonedJobKeptFresh | hefest/worker/consumer.py:349-374 | every leased row has a known owner, in whose current batch it is unfinished if that owner is running; between batches a worker's renewal touches nothing |
| DeliveryTheorems.DeadLeaseIsReapable | hefest/worker/claim.py:181-190 | a dead worker's lease is frozen until reaped and may be reaped as soon as its heartbeat is too old |
| DeliveryTheorems.FailedNeverClaims | hefest/worker/__main__.py:73-84 | in every run a worker whose consumer failed claims nothing more, and one that exited takes no step |
| DeliveryTheorems.LeaseSafety | hefest/worker/heartbeat.py:61-70 | a reaper only takes rows whose owner's last committed renewal is older than the idle limit |
| DeliveryTheorems.HeartbeatIsClaimOrRenewal | hefest/worker/claim.py:127-130 | in every run a held row's heartbeat is the time of the claim it is under, or of its owner's last committed renewal if that is later |
| DeliveryTheorems.StaleIff | hefest/worker/claim.py:181-190 | a lease may be reaped exactly when both its claim and its owner's last committed renewal are older than the idle limit |
| DeliveryTheorems.ClocksAreSteps | hefest/worker/heartbeat.py:105-111 | a worker's last committed renewal and last seen success are those of its steps |
| DeliveryTheorems.LeaseLostIff | hefest/worker/heartbeat.py:105-129 | in every run lease_lost is set exactly from the first failed renewal on that comes more than the idle limit after the last one seen to succeed, or the start |
| DeliveryTheorems.LeaseLostAllStaleIff | hefest/worker/heartbeat.py:9-13 | lease_lost means no renewal was seen to succeed within the idle limit; everything the worker holds may then be reaped exactly if its claims and its last committed renewal are that old |
| DeliveryTheorems.HistoryCountsRun | hefest/worker/claim.py:127-130 | the claim history counts exactly the claims, sends, reaps and retries of the run |
| DeliveryExamples.ReapCanResend | hefest/worker/consumer.py:17-21 | delivery is at least once, not exactly once: a run with one reap and two accepted sends |
| DeliveryExamples.LeaseLostWithFreshRow | hefest/worker/heartbeat.py:9-13 | a run in which lease_lost is set while the worker holds a row that is not stale |
| Delivery.ReplayProlongsRun | hefest/worker/consumer.py:300-374 | steps that replay from the end of a run prolong it to a run, so the theorems apply to the example runs and after the heartbeat loop's steps |
| Consumer.Consumer.constructor | hefest/worker/consumer.py:300-323 | a consumer takes over at the end of any run of the protocol; from then on its invariant is that what it did prolongs that run |
| Consumer.Consumer.ConsumerGuarantees | hefest/worker/consumer.py:245-276 | at any moment of a drain accepted sends of a job exceed its reaps by at most one, a completed job had one, and attempts count claims |
| Consumer.Consumer.ReapPass | hefest/worker/consumer.py:331-335 | one reap transaction, as one protocol step; exactly a fault ends the consumer, whether or not it committed |
| Consumer.Consumer.ClaimSeen | hefest/worker/consumer.py:349-353 | one claim transaction, as one protocol step that is enabled because the previous batch is over |
| Consumer.Consumer.ClaimMissed | hefest/worker/consumer.py:349-353 | a claim that raises although it may have committed: the rows are leased, no batch is begun, the consumer ends |
| Consumer.Consumer.TryOnce | hefest/worker/consumer.py:158-160 | one finalizer transaction, committed or not, reported or not, as one protocol step |
| Consumer.Consumer.Deliver | hefest/worker/consumer.py:245-261 | one send with the outcome the world gives it; exactly an error of another kind ends the consumer |
| Consumer.Consumer.FinalizeTask | hefest/worker/consumer.py:157-184 | a transient fault lets the finalizer be tried again unless it was the third; exactly that or any other fault ends the consumer |
| Consumer.MidwayTried | hefest/worker/consumer.py:131-184 | a try settles the task's row whether or not it wrote or was seen to; after a reported one the row is released; each try uses up one of three |
| Consumer.Consumer.Beat | hefest/worker/heartbeat.py:105-129 | renewals while a drain awaits touch only the heartbeats of rows the worker holds |
| Consumer.Consumer.StepTask | hefest/worker/consumer.py:217-276 | a task goes on to its next await, settling only its own row and using up a step; an unhandled error ends the consumer |
| Consumer.TaskCounts | hefest/worker/consumer.py:131-184 | between its claim and the end of its batch a task sends once and then tries its finalizer at most three times |
| Consumer.Consumer.ProcessBatch | hefest/worker/consumer.py:364-368 | in any interleaving of its tasks a batch ends; each job is sent at most once with at most three tries, all settle and are released unless an error ends the consumer, and rows outside stay |
| Consumer.ClaimsShrink | hefest/worker/consumer.py:345-374 | each claim spends part of a finite budget of attempts, which is why a drain ends |
| Consumer.Consumer.Drain | hefest/worker/consumer.py:324-374 | a drain ends; its claim steps of a job number at most max(1, limit minus attempts at entry); it raises exactly if something fatal struck, stops only on a signal or a lost lease, and with neither it is drained: then everything pending is due after the clock of its last claim step and no lease that was stale at entry is left |
| LeaseHeartbeat.Heartbeat.Run | hefest/worker/heartbeat.py:96-129 | lease_lost is set exactly at the first failed renewal with no success within the idle limit, committed renewals reach the table, and the turns are protocol steps |
| LeaseHeartbeat.BeatsAreSteps | hefest/worker/heartbeat.py:105-129 | with one clock the turns of the loop replay as protocol steps with the same table, last success and lease_lost |
| Wakeup.DeliveryEvolves | hefest/worker/claim.py:119-131 | every protocol step of any worker counts claims up and leaves unclaimed rows alone, as the wake-up model assumes of others |
| Wakeup.NoLostWakeup | hefest/worker/consumer.py:449-456 | with LISTEN caught up, a worker waiting with the flag unset has seen every job claimed except those whose NOTIFY is still under way |
| Wakeup.DeliveredJobsClaimed | hefest/worker/consumer.py:404-414 | once a NOTIFY was delivered, its jobs are claimed before the worker waits with the flag unset |
| Wakeup.WakeIff | hefest/worker/consumer.py:404-414 | in every run the flag is set exactly if a signal was delivered or a reconnect caught up since it was last cleared |
| Wakeup.ShortClaimSettles | hefest/worker/consumer.py:355-374 | a claim is the last of its drain exactly if it took fewer rows than it could |
| Wakeup.InvStep | migrations/0004_relay_notify_trigger.py:36-39 | inserts, deliveries, drops, reconnects, claims and waits keep the wake-up invariant |
| Waitlist.AppendIff | hefest/services/registration.py:194-202 | a newcomer goes to the end of the waitlist exactly when it comes after everyone waiting |
| Waitlist.RemoveOne | hefest/services/registration.py:194-202 | leaving the waitlist removes that row and reorders nothing |
| Waitlist.PositionsBijective | hefest/services/registration.py:253-266 | counted positions are a bijection onto 1..n |
| Waitlist.PositionOneIsNext | hefest/services/registration.py:194-202 | position 1 is exactly the row the next promotion takes |
| Waitlist.RemovalShifts | hefest/services/registration.py:261-265 | when a row leaves, exactly the later ones move up, by one |
| Waitlist.PromisedPosition | hefest/services/registration.py:67-76 | the position told at registration is the counted one exactly when the newcomer comes last |
| Waitlist.PagesAreAll | hefest/services/registration.py:313-322 | pages of any size put together are the whole list |
| Waitlist.PositionInPages | hefest/services/registration.py:313-322 | a row's counted position is its place in the organizer's pages, for every page size |
| RegistrationLog.OutboxIsExactLog | hefest/services/registration.py:91-106 | in every reachable state the jobs of each registration, read in order, give its status, racing cancellations included |
| RegistrationLog.OnlyRepeatedFanOutCollides | hefest/services/registration.py:165-230 | registering and withdrawing never need a stored key; a cancellation of an event does exactly when it would tell someone active a second time |
| RegistrationLog.KeysAlwaysDistinct | hefest/models/notification_job.py:45 | idempotency keys in the outbox are pairwise different |
| RegistrationLog.FreeKeys | hefest/services/registration.py:203-230 | which keys of a registration are still unused, by what its jobs say so far |
| RegistrationSeats.SeatConservation | hefest/services/registration.py:56-76 | taken seats never exceed the largest capacity the event has had and never grow while at or above the current one |
| RegistrationSeats.MaxCapWasHad | hefest/services/event.py:197-199 | that largest capacity is one the event really had |
| RegistrationSeats.WaitlistRefinesQueue | hefest/services/registration.py:187-205 | every step acts on the waitlist as a queue operation: a full event enqueues, a withdrawn seat pops, a withdrawn waiter leaves |
| RegistrationSeats.WaitlistIsQueue | hefest/services/registration.py:56-84 | over a whole run the table's waitlist is the abstract first-in-first-out queue |
| RegistrationSeats.PromotionTakesHead | hefest/services/registration.py:193-205 | withdrawing a seat gives it to the head of the queue and to no one else |
| RegistrationSeats.WaitingMeansFullIff | hefest/services/event.py:197-199 | people wait only while the event is full, up to any point of a run, exactly if no update left seats free while people waited |
| RegistrationSeats.WaitingMeansFull | hefest/services/registration.py:56-76 | in particular while capacity has not been raised |
| RegistrationSeats.NoOvertakingIff | hefest/services/registration.py:62-76 | everyone seated registered before everyone waiting, up to any point of a run, exactly if no registration found a seat free while others waited |
| RegistrationSeats.NoOvertaking | hefest/services/registration.py:187-205 | in particular while capacity has not been raised |
| RegistrationExamples.RaiseLetsOvertake | hefest/services/event.py:197-199 | a run in which raising the capacity seats a newcomer ahead of someone waiting |
| EventCancellation.CancelledIsFrozen | hefest/services/event.py:218-220 | a cancelled event stays cancelled exactly as long as no late publish save lands on it, and as long as it does its registrations never grow |
| EventCancellation.FanOutComplete | hefest/services/event.py:276-300 | in every run, everyone active while the event is cancelled has exactly one EventCancelled job then and later, and so has everyone still active in a cancelled event |
| EventCancellation.CancelFailsIff | hefest/services/event.py:285-300 | cancelling fails on a stored key exactly if the event can be cancelled and someone active now was active when a late publish save revived it |
| EventCancellation.NoCollisionWithoutStalePublish | hefest/services/event.py:285-300 | in particular never before such a save |
| RegistrationExamples.StalePublishRevives | hefest/services/event.py:339-364 | a run in which a late publish revives a cancelled event, which then cannot be cancelled again |
| RegistrationExamples.DoubleWithdrawal | hefest/services/registration.py:165-180 | a run in which two withdrawals race on stale reads: one promotes, the other is refused |
| RegistrationReplies.AtMostOneActive | hefest/models/registration.py:54-60 | in every run a student has at most one registration in force for an event |
| RegistrationReplies.RegisterAnswers | hefest/services/registration.py:44-106 | in every run: not found exactly for an event that is missing or not published, a conflict exactly for a student with a registration in force, else admitted, seated exactly if a seat is free, with the job that says so |
| RegistrationReplies.FirstReadAnswers | hefest/services/registration.py:138-154 | a withdrawal passes its unlocked read exactly for the student's own registration in force |
| RegistrationReplies.WithdrawAnswers | hefest/services/registration.py:156-230 | in every run only the holder withdraws, refused exactly once withdrawn or started; the seat goes to the waiting row with the smallest time and id, with both jobs |
| RegistrationReplies.EndsFollowReads | hefest/services/registration.py:138-168 | in every run each locked remainder belongs to a first read of its own |
| RegistrationReplies.JobsAddressed | hefest/services/registration.py:91-106 | in every run every job carries the event and student of its registration |
| RegistrationReplies.CancelEventAnswers | hefest/services/event.py:251-300 | in every run only the organizer cancels, not after the start; a second time nothing happens; else exactly those in force are told, once each |
| RegistrationReplies.UpdateAnswers | hefest/services/event.py:171-201 | only the organizer changes capacity and start, and nothing else changes |
| RegistrationReplies.PublishAnswers | hefest/services/event.py:339-364 | a publish request passes its read exactly for the organizer's own draft |
| RegistrationReplies.SavesFollowReads | hefest/services/event.py:218-220 | in every run each publish save belongs to a read of its own |
| RegistrationReplies.PublishedBySave | hefest/services/event.py:218-220 | in every run a published event was saved as published |
| RegistrationReplies.SavePublishes | hefest/services/event.py:218-220 | a save makes the event published and changes nothing else |
| RegistrationService.Service.RegisterStudent | hefest/services/registration.py:44-115 | the transaction, with its replies for missing events, repeated registrations and stored keys, and the waitlist position it reports |
| RegistrationService.Service.FinishCancel | hefest/services/registration.py:153-230 | the locked part of a cancellation: decides on the row as it is then, promotes the first waiting row, writes both jobs or nothing |
| RegistrationService.Service.CancelEventByOwner | hefest/services/event.py:251-302 | the transaction, with one job for each active registration and none otherwise |
| RegistrationService.Service.ListMine | hefest/services/registration.py:247-278 | lists exactly the student's registrations that are not withdrawn, each waitlisted one with its place in the event's queue |
| RegistrationService.Service.ListEvent | hefest/services/registration.py:304-342 | one page of the ordered list for the owner, not found for others |
| RateLimit.ScriptFollowsRule | hefest/middleware/rate_limit.py:39-53 | one run of the script decides as the full history would, and its pruned, expiring set still stands for that history |
| RateLimit.PrunedSetDecidesAsHistory | hefest/middleware/rate_limit.py:39-46 | after any calls with non-decreasing time the script and the rule that forgets nothing agree on the next one |
| RateLimit.LimitOverEveryWindow | hefest/middleware/rate_limit.py:39-46 | no interval of window length holds more than the limit of accepted requests |
| RateLimit.AnswerIsOfHistory | hefest/middleware/rate_limit.py:39-53 | the whole answer, Retry-After included, is a function of the full history of accepted requests |
| RateLimit.BlockedCallsLeaveNoTrace | hefest/middleware/rate_limit.py:26-31 | deleting a blocked request changes no later answer, Retry-After included |
| RateLimit.RetryAfterExact | hefest/middleware/rate_limit.py:48-53 | Retry-After is the exact ceiling, at least 1 without the explicit bound; then the window has room, one second earlier it has none |
| RateLimit.RetryAfterSuffices | hefest/middleware/rate_limit.py:48-53 | after a block, if nothing else is accepted, a request Retry-After seconds later is accepted |
| RateLimit.RetryAfterTight | hefest/middleware/rate_limit.py:48-53 | one a second earlier is still blocked |
| RateLimit.RetryAfterWithoutLimit | hefest/middleware/rate_limit.py:48-53 | a limit of zero blocks every call with the whole window as Retry-After |
| RateLimit.Limiter.Check | hefest/middleware/rate_limit.py:32-54 | runs the script on one key in place and leaves the other keys alone |
| SendSchedule.TaskTimeBound | hefest/worker/consumer.py:296-297 | with tasks of at most T and c slots, task k is over within k / c + 1 rounds of T |
| SendSchedule.BatchTimeBound | hefest/config.py:70-77 | N tasks finish within ceil(N / c) times T |
| SendSchedule.RunBatch | hefest/worker/consumer.py:344-368 | the first-come-first-served semaphore gives such a schedule: at most c at once, no one waits while a slot is free |
| MailerPool.PoolNeverStarves | hefest/worker/mailer.py:164-178 | in every schedule of a batch no check-out waits, no return is refused, idle and used clients add up to the pool size, and none is used twice |
| MailerPool.Mailer.constructor | hefest/worker/mailer.py:137-147 | the pool starts with one distinct client per slot |
| MailerPool.Mailer.CheckOut | hefest/worker/mailer.py:164 | takes the first idle client, or waits if there is none; a task inside the semaphore never waits, and this is its step |
| MailerPool.Mailer.CheckIn | hefest/worker/mailer.py:178 | returns a client unless the bounded queue is full; the task that holds it is never refused, and this is its step |
| MailerPool.Classify | hefest/worker/mailer.py:65-115 | permanent exactly for a reply code of 500 or more, alone or among the refused recipients (section 4.2.1 of RFC 5321) |
| RefreshTokens.ChainsLinear | hefest/services/auth.py:208-245 | in every run the tokens grown from one login share user and client and at most one is in force |
| RefreshTokens.RotatesOnce | hefest/services/auth.py:233-243 | no token is rotated successfully twice |
| RefreshTokens.ReuseDetected | hefest/services/auth.py:224-231 | presenting a rotated token again is always answered as reuse |
| RefreshTokens.RevocationFinal | hefest/services/auth.py:259-278 | a revocation, with its time, is never undone |
| RefreshTokens.RotateMeans | hefest/services/auth.py:210-245 | the exact condition of each of the five replies, and what each leaves in the table |
| RefreshTokens.RotatedIff | hefest/services/auth.py:208-245 | in every run a token is rotated exactly if an earlier step issued it to that client, nothing has ended it since and its lifetime is not over |
| RefreshTokens.RevokeUserLogsOut | hefest/services/auth.py:270-279 | afterwards no token of the user is in force; all others are unchanged |
| RefreshTokens.TokenTable.RotateToken | hefest/services/auth.py:210-245 | rotation in place: rotated exactly for a known token in force, not expired and presented by its client; successor, revocation and the other replies as they must be, for both fates of the family revocation |
| RefreshTokens.TokenTable.RevokeAllForUser | hefest/services/auth.py:270-279 | revokes every token of the user that is in force and changes no other |

## Left out

- Consumer.Consumer.Drain: one worker, no concurrent inserts, positive batch sizes and backoff base; with other workers reaping, a drain need not end, and the run theorems of DeliveryTheorems cover the interleaved case.
- Consumer.Consumer.StepTask: a send is one step, taken when its outcome is known, and the semaphore's limit is not imposed; SendSchedule and MailerPool cover timing and the limit.
- Wakeup.NoLostWakeup: `run` and `_listen` are modelled as a step system on values; the fallback poll is a wake-up that may happen at any time, and reconnect backoff is not modelled.
- LeaseHeartbeat.Heartbeat.Run: the loop runs over a finite list of renewals, after which it is cancelled; the sleep interval is not modelled.
- RegistrationSeats.WaitlistIsQueue: requires strictly increasing `registered_at` within an event; Waitlist.AppendIff says what happens on a tie.
- RefreshTokens.TokenTable.RotateToken: whether the family revocation survives the exception raised after it is left open; both cases are covered.
- RateLimit.Limiter.Check: floating point is modelled by reals; rule matching, key construction and token verification of the middleware are not modelled.
- The order of the rows a claim returns, which the statement does not fix.
- Database, ORM, Redis, SMTP and push internals, isolation anomalies below the statement level, and clock skew between processes.
- Payload contents beyond ids and the waitlist position, templates, recipients and best-effort push: single-branch text or I/O.
- Updates of event fields other than capacity and start time, event creation checks, listing and detail views of events, statistics, devices, routers and schemas: easy facts.
- JWT, password hashing, cookies and single sign-on: thin wrappers over libraries.
