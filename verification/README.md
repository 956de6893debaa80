# Verified model of the backend schedulers, queues and mail engine

Dafny models of the stateful algorithms at the heart of the repository, with proofs about every input, every
interleaving or every run. `dafny verify dfyconfig.toml` checks the whole project.

| module | models |
|---|---|
| `MilvusGate`, `MilvusGateObject` | the priority gate in front of Milvus: an async mutex with nice-ordered hand-off, bounded skipping and cancellation, as a transition system whose steps are the stretches between awaits, and as the object updated in place |
| `WritePressure` | the write-pressure retry loop and the budget concurrent upserts of one stream share |
| `StreamLog`, `StreamReaders` | a stream job's replay log, trimmed while readers hold cursors into it |
| `EmbedPipeline` | ingest and embedding joined by a bounded queue and a semaphore |
| `EmbedAccounting` | the progress counters of an embedding stream under concurrent batches |
| `PageWalk` | the capped walk over Apollo's result pages |
| `Calendar`, `Cron`, `CronLookahead`, `CronRate` | cron parsing on tokenised fields, the next fire over the Gregorian calendar, its bounded lookahead, and the rate guard on new schedules |
| `Schedules`, `ScheduleTable` | schedule rows shared by any number of pods: claim, pause, re-arm and cancel interleaved, and the poller that fires from them |
| `Emails`, `CampaignLedger`, `CampaignAccepted`, `CampaignPacing`, `CampaignPool`, `CampaignMailboxes`, `CampaignCycle`, `CampaignOneOff`, `CampaignEngine` | the campaign send engine: the shared send log and the mail Gmail has accepted, per-domain caps, suppression, the two pacing strategies, mailboxes taking turns, one-off sends and recipient merges |
| `JobStore` | the job-event upsert with its two guards |
| `Csv` | the two CSV parsers and an RFC 4180 (section 2) encoder they undo |
| `Options`, `Text`, `Division` | an optional value, white space at the ends of a string, quotients and remainders |

## Modelling assumptions

- Asynchronous code is modelled by steps that each run from one await to the next; every order of steps is allowed.
- Clocks, sends, fetches and embedder answers are parameters or chosen freely; a clock never runs backwards.
- Accepted mail is dated when Gmail accepts it, and its row when it is logged.
- Pods share one clock, read it freely before acting on it, and use `rearm_paused` as one transaction at the current
  time. `claim_due_schedule` and `pause_for_reauth` are single guarded updates; a cancel reads first and writes later.
- Campaign ticks run one after another, as `tick_all` runs them, with one-off sends and merges between ticks. A cap,
  a cooldown and a sends-per-cycle setting stay fixed during a run; campaigns and mailboxes may change between ticks.
- Sending domains stand for the places of their names in sorted order. Instants are whole minutes or microseconds;
  seconds of sleep are reals. A date is a day number counted from 0001-01-01.

## Where the code differs from what it says

- The shared write-pressure budget is documented as a single bounded total. It is read before a sleep and charged
  after it, so it bounds the total exactly when one upsert runs at a time or it is empty
  (`WritePressure.BudgetBoundsTotal`); with k at a time the bound is B + 16(k-1) seconds.
- The cron lookahead is said to cover every satisfiable expression. It misses expressions that only fire on the 29th of
  February when the window lies between the leap days around a skipped century such as 2100
  (`CronLookahead.LookaheadExact`, `CronLookahead.LookaheadFallsShort`).
- The rate guard lets such an expression through when it is asked in the last firing hour before such a gap, because
  its sample is then cut short (`CronRate.GuardExact`); `CronRate.GuardLetsThrough` and `CronRate.SixAnHour` are two
  that get through on 2096-02-29. In every other case a pair of minutes below the floor is caught.
- When a request for stream events also names an unknown job, the known ones are looked up first and registered with
  only after that has been answered. A finished job may expire in between, and its reader then ends with nothing
  (`StreamReaders.LateReaderExists`). Readers are sure to get everything exactly when their request names known jobs
  only (`StreamReaders.DrainedReaderHasEverything`).
- One-off sends are meant to fall under the same cap and suppression as campaign sends. One that Gmail accepted but whose
  copy could not be read back is not logged, so nothing ever counts it. Accepted mail is what the log says was sent, and
  so within caps and spacing, exactly in the runs without such a send (`CampaignEngine.Drive`); with them any number of
  messages reaches one person on one day, under any cap (`CampaignEngine.ManyInADay`).
- A page walk started beyond page 500 fetches nothing and completes as if the results were exhausted
  (`PageWalk.RunPagedSearch`).

## Model

| member | source | states |
|---|---|---|
| MilvusGate.GateIsSafe | leads/app/milvus_client.py:200-254 | under every interleaving of acquires, releases and cancellations, before or after a hand-off, at most one task has the slot, `held` says whether one does, and a free gate has nobody queued |
| MilvusGate.NextKeepsInv | leads/app/milvus_client.py:200-254 | each step between two awaits keeps that safety and the order of the queue |
| MilvusGate.ChooseMeaning | leads/app/milvus_client.py:232-254 | the choice comes before every other live waiter in the order of the rule |
| MilvusGate.HandOffRule | leads/app/milvus_client.py:232-254 | if some live waiter has been skipped `max_skips` times the slot goes to the first to arrive of those, otherwise to the lowest nice, earliest first; it is let go only when nobody live waits |
| MilvusGate.WakeTakes | leads/app/milvus_client.py:232-254 | a hand-off goes to a live waiter and everybody left in the queue is live and somebody else |
| MilvusGate.WakeLeaves | leads/app/milvus_client.py:232-254 | no live waiter but the chosen one leaves the queue in a hand-off |
| MilvusGate.WakeKeepsOrder | leads/app/milvus_client.py:189-191 | skips stay non-increasing in arrival order through every hand-off |
| MilvusGate.NobodyCutsIn | leads/app/milvus_client.py:200-230 | joins, cancellations and clean-ups never move a waiter that stays queued further back |
| MilvusGate.StepPatience | leads/app/milvus_client.py:232-254 | a hand-off to somebody else uses up a skip or a place of every waiter that stays, and a starved one is not overtaken |
| MilvusGate.BoundedWait | leads/app/milvus_client.py:165-170 | from any moment on, the slot changes hands at most skips-left plus live-waiters-ahead times while a waiter stays queued |
| MilvusGate.BoundedOvertaking | leads/app/milvus_client.py:165-170 | from the moment it joins, a waiter is overtaken by at most `max_skips` later arrivals and waits for at most `max_skips` plus the live waiters ahead of it |
| MilvusGate.OvertakenWithinCeiling | leads/app/milvus_client.py:194-198 | in every run of a gate made with `max_skips` a waiter is overtaken at most that often, or once if it is below 1 |
| MilvusGate.StarvedIsPrefix | leads/app/milvus_client.py:243-253 | the starved waiters are the front of the queue |
| MilvusGate.ChoiceRespectsTier | leads/app/milvus_client.py:243-253 | the rule never prefers a later waiter of the same or a higher nice |
| MilvusGate.TierFifo | leads/app/milvus_client.py:189-191 | nobody is handed the slot while an earlier live waiter of the same or a lower nice is queued |
| MilvusGate.ServedInArrivalOrder | leads/app/milvus_client.py:189-191 | over whole runs two waiters of one nice that both stay are served in arrival order, forced selections included |
| MilvusGateObject.Oldest | leads/app/milvus_client.py:243-247 | the earliest arrival of a list |
| MilvusGateObject.Nicest | leads/app/milvus_client.py:243-247 | the lowest nice of a list, the earliest of those |
| MilvusGateObject.Select | leads/app/milvus_client.py:239-247 | the starved-first selection picks the waiter the rule chooses |
| MilvusGateObject.AsyncGate.WakeNext | leads/app/milvus_client.py:232-254 | the update in place of `_held`, the waiter list and every waiter's skips is the hand-off of the transition system, and of the waiter objects it picks the oldest one at its skip ceiling, else the lowest nice, earliest first |
| MilvusGateObject.AsyncGate.Enter | leads/app/milvus_client.py:200-211 | a free gate is taken at once, otherwise a waiter is appended with the next sequence number |
| MilvusGateObject.AsyncGate.OnCancelled | leads/app/milvus_client.py:212-221 | a task cancelled after it was handed the slot passes it on, one cancelled before leaves the queue |
| MilvusGateObject.AsyncGate.RemoveWaiter | leads/app/milvus_client.py:226-230 | removes that waiter and nobody else |
| MilvusGateObject.AsyncGate.Release | leads/app/milvus_client.py:223-224 | releasing hands the slot on by the same rule |
| WritePressure.BackoffBound | leads/app/milvus_client.py:502-533 | with at most k upserts at a time the total sleep of a stream never exceeds B + 16(k-1) seconds |
| WritePressure.BudgetBoundsTotal | leads/app/milvus_client.py:103-118 | the budget bounds the total sleep of every run if and only if k is at most 1 or the budget is empty |
| WritePressure.Overspend | leads/app/milvus_client.py:519-531 | two upserts can sleep longer than whatever is left of a budget |
| WritePressure.UpsertLeadVectors | leads/app/milvus_client.py:476-533 | the retry loop ends; its nth sleep is the least of 2^n, 16 and what is left of the budget, or of 60 s unbound, and is taken off that; one call sleeps at most the budget, or 60 s; it retries on write pressure only and gives up on it only with nothing left |
| WritePressure.BackoffDoubles | leads/app/milvus_client.py:517-524 | with budget enough the sleeps are 1, 2, 4, 8 and then 16 seconds, with less left they are cut to that |
| WritePressure.NextKeepsInv | leads/app/milvus_client.py:513-531 | every step keeps remaining plus slept within the budget plus what sleepers have not been charged yet |
| StreamLog.StreamJob.Publish | leads/app/stream_jobs.py:132-144 | after any publish the history is everything published less all but the newest 500 lossy events |
| StreamLog.StreamJob.TrimProgress | leads/app/stream_jobs.py:146-159 | trimming in place drops exactly the oldest lossy event once there are more than 500 |
| StreamLog.StreamJob.NextBuffered | leads/app/stream_jobs.py:999-1004 | the first retained event after the cursor, if there is one |
| StreamLog.RetainedSnoc | leads/app/stream_jobs.py:132-159 | trimming after each publish keeps the same log as trimming the whole history once |
| StreamReaders.RetainedMeaning | leads/app/stream_jobs.py:146-159 | an entry is retained if and only if it is lossless or enough newer lossy ones have not pushed it out |
| StreamReaders.ReplayedExactly | leads/app/stream_jobs.py:132-159 | an event is replayed unless it is a progress, embedding-progress or throttling one with 500 or more such after it |
| StreamReaders.NextSkipsLossy | leads/app/stream_jobs.py:999-1004 | between a cursor and the next entry of a trimmed log only lossy events are missing |
| StreamReaders.RegisteredReaderMissesNothing | leads/app/stream_jobs.py:1007-1062 | under every interleaving from the creation of the job, started or not, a reader gets strictly increasing numbers and every lossless event up to its cursor exactly once, and its job is not dropped under it, unless its request also named an unknown job and this one was dropped meanwhile |
| StreamReaders.ReaderGetsEvery | leads/app/stream_jobs.py:1037-1052 | every event but progress, embedding progress and throttling reaches each reader whose cursor has passed it |
| StreamReaders.ReadTakes | leads/app/stream_jobs.py:1043-1062 | a read takes the first retained entry past the cursor; it is the last exactly when that is a complete or error event, or when there is none and the job has ended |
| StreamReaders.DrainedExactly | leads/app/stream_jobs.py:1043-1062 | in every run a registered reader is done with a job if and only if one of its reads was such a last one |
| StreamReaders.DrainedHas | leads/app/stream_jobs.py:1043-1062 | a reader that is done took a complete or error event last, or had everything lossless published by then with the job ended |
| StreamReaders.PublishedTooLate | leads/app/stream_jobs.py:123-144 | a run in which a job is published to after it ended and its reader is done with an entry still ahead of it |
| StreamReaders.DroppedExactly | leads/app/stream_jobs.py:216-235 | in every run a job is dropped exactly when nobody is registered with it and it ended, or was made and never started, 90 seconds ago |
| StreamReaders.DrainedReaderHasEverything | leads/app/stream_jobs.py:1014-1036 | in every run every reader for which the log runs out has everything lossless, if and only if requests name known jobs only |
| StreamReaders.OnlyLateReadersMiss | leads/app/stream_jobs.py:1032-1062 | in one run such a reader misses something if and only if its job was dropped before it registered, which needs an unknown job in the request, and anything lossless was published |
| StreamReaders.LateReaderExists | leads/app/stream_jobs.py:1025-1036 | a run in which a finished job expires while an unknown one is answered for, and the reader gets nothing |
| StreamReaders.NextKeepsInv | leads/app/stream_jobs.py:123-235 | publish, start, finish, lookup, register, read, release and expiry each keep the log and every reader's account of it |
| EmbedPipeline.BoundedInFlight | leads/app/stream_jobs.py:862-996 | in every reachable state at most max(1, `max_pages`) + max(1, `concurrency`) admitted batches are unfinished, at most max(1, `concurrency`) run, at most max(1, `max_pages`) wait, and they start in the walk's order |
| EmbedPipeline.ClosedAfterAll | leads/app/stream_jobs.py:943-996 | the embedding stream is closed only after every task has ended; without a cancellation each batch had exactly one task, in order |
| EmbedPipeline.SomebodyMoves | leads/app/stream_jobs.py:929-996 | whatever was cancelled, until the stream is closed some coroutine can move |
| EmbedPipeline.PipelineTerminates | leads/app/stream_jobs.py:862-996 | a busy run over n batches has at most 4n + 7 steps, and one that cannot go on has closed the stream with every batch started |
| EmbedPipeline.NextKeepsInv | leads/app/stream_jobs.py:868-978 | every step keeps the queue bound, the slot count and the batches' order |
| EmbedAccounting.Conservation | leads/app/stream_jobs.py:492-636 | at every step the total is what is done, failed and still unprocessed in flight, and a natural completion carries done + failed = total |
| EmbedAccounting.IndexedWithinDone | leads/app/stream_jobs.py:560-610 | when the embedder reports at most its chunk, indexed never exceeds done in the counters or any event |
| EmbedAccounting.FinishIsHonest | leads/app/stream_jobs.py:455-474 | the completion of a finished stream accounts for every id |
| EmbedAccounting.UniqueIdsMeaning | leads/app/stream_jobs.py:505 | a batch is reduced to its distinct ids, stripped of white space and not empty |
| EmbedAccounting.UniqueIdsKeepOrder | leads/app/stream_jobs.py:505 | ids keep the order in which they first come |
| EmbedAccounting.EmbeddingStreamState.AddBatch | leads/app/stream_jobs.py:492-536 | a batch is admitted unless the stream is closed or cancelled, and only then counted |
| EmbedAccounting.EmbeddingStreamState.FinishInFlight | leads/app/stream_jobs.py:455-474 | the last batch to leave a closed stream publishes the completion, and no other does |
| EmbedAccounting.ScheduleEmbeddingBatch | leads/app/stream_jobs.py:492-636 | a batch embeds each distinct id exactly once in bounded chunks, its counters are the fold of what the embedder answers chunk by chunk, and the stream stops accepting exactly when it is closed meanwhile; the completion event comes exactly when the batch leaves a closed stream without batches, carrying the final tallies |
| EmbedAccounting.AccountAllTotals | leads/app/stream_jobs.py:567-625 | whatever the embedder answers, a batch adds exactly its ids to done plus failed and leaves the total alone |
| EmbedAccounting.AllOrNothing | leads/app/stream_jobs.py:567-625 | with every chunk indexed all ids are done, with every chunk failed and no count given all are failed |
| EmbedAccounting.AccountMeaning | leads/app/stream_jobs.py:567-625 | of a failed chunk the ids it attempted are failed and the rest done |
| EmbedAccounting.EmbedAll | leads/app/stream_jobs.py:548-636 | the chunk loop hands every id to the embedder once, in order, in chunks of 16 but perhaps the last, and accounts for each answer |
| PageWalk.ReportedPages | leads/app/stream_jobs.py:639-666 | a page count Apollo gives wins, the nested one first; otherwise there are just enough pages for the entries, and at least one |
| PageWalk.Entries | leads/app/stream_jobs.py:653-658 | the first entry count that is not zero, the nested one first |
| PageWalk.PublishPage | leads/app/stream_jobs.py:735-800 | a page's ids are published in full or cut off at the overall limit, with the running total |
| PageWalk.TotalPages | leads/app/stream_jobs.py:639-666 | the shown page count is clamped to Apollo's 500 pages and flags exactly when it was |
| PageWalk.RunPagedSearch | leads/app/stream_jobs.py:709-841 | pages ascend from the one asked for, or the first; the final total is what was published; each page but the last was full with more to come by Apollo's count, and a full completion means the last one was not; nothing is fetched uncancelled exactly when the start is past page 500; the completion says cancelled exactly as the job was when the walk last looked |
| PageWalk.OnePage | leads/app/stream_jobs.py:735-827 | one turn of the walk halts before paying for a page exactly when the job is cancelled by then, fails exactly with its fetch, and goes on only when Apollo has more to give and nobody has cancelled |
| PageWalk.WalkWithinCeiling | leads/app/stream_jobs.py:735-827 | at most 500 fetches and, with at most 100 ids each, at most 50,000 ids |
| Calendar.OrdinalOfDate | agents/app/cron.py:158-175 | counting days forward and the closed-form day number agree on every day |
| Calendar.DateOfOrdinal | agents/app/cron.py:158-175 | every date has its own day number |
| Calendar.KnuckleRule | agents/app/cron.py:158-175 | long and short months alternate to July and again from August |
| Calendar.EightYears | agents/app/cron.py:34-36 | around a skipped century the two nearest leap days are 2921 days apart |
| Calendar.WeekdayCounts | agents/app/cron.py:166-167 | the weekday counts on by one from each day to the next, Sunday after Saturday, from Monday 0001-01-01 |
| Calendar.WeekdaySince | agents/app/cron.py:166-167 | it is the number of days since any Sunday less whole weeks |
| Calendar.KnownWeekdays | agents/app/cron.py:166-167 | 2023-12-31 is a Sunday and 2024-01-01 a Monday |
| Cron.ParseField | agents/app/cron.py:52-121 | a field parses if and only if each item is well formed, and yields exactly the values the items list, in bounds, with Sunday as 0 or 7 |
| Cron.ListValues | agents/app/cron.py:95-117 | the stepped range walk yields exactly the listed values and fails exactly on one out of bounds |
| Cron.ListedMeaning | agents/app/cron.py:70-117 | an item lists its first value and every step from there to its last |
| Cron.PartOkMeaning | agents/app/cron.py:70-117 | which stars, values and ranges parse |
| Cron.SundayTwice | agents/app/cron.py:95-110 | 7 stands for Sunday, which is 0 |
| Cron.ParseCron | agents/app/cron.py:124-146 | an expression parses if and only if it has five well-formed fields; each value set and each restricted flag is its field's |
| Cron.MatchesAt | agents/app/cron.py:158-162 | a minute fires when minute, hour and day are each listed |
| Cron.DayRules | agents/app/cron.py:163-175 | weekdays alone are exactly the days so many after a known Sunday, days of the month alone exactly those dates, both the days of either, neither every day of the months |
| Cron.NineOnMonday | agents/app/cron.py:178-196 | nine on Mondays asked at midnight on Monday 2024-01-01 is that morning |
| Cron.NextMatchIsLeast | agents/app/cron.py:178-196 | the search returns the least matching minute of its window, or none if there is none |
| Cron.CronNext | agents/app/cron.py:178-196 | the stepping loop returns the least matching minute strictly after the given instant |
| CronLookahead.LookaheadExact | agents/app/cron.py:34-36 | the search gives up if and only if no date satisfies the day fields, or only the 29th of February does and the window lies in the gap around a skipped century |
| CronLookahead.LookaheadSuffices | agents/app/cron.py:34-36 | in a window without a skipped leap day it gives up if and only if no Gregorian date at all satisfies the day fields |
| CronLookahead.LookaheadFallsShort | agents/app/cron.py:34-36 | midnight on the 29th of February: asked on 2096-03-01 no fire is found, though 2104 has one |
| CronLookahead.UnsatisfiableMeaning | agents/app/cron.py:158-175 | no date satisfies the day fields if and only if every asked-for day is too late for every asked-for month |
| CronLookahead.Feb29Exact | agents/app/cron.py:178-196 | for the 29th of February alone the search fails exactly in the gap, end days counted minute by minute |
| CronLookahead.EndDaysCover | agents/app/cron.py:190-196 | the two partial end days of the window together cover every minute of a day |
| CronLookahead.NextDay372 | agents/app/cron.py:158-175 | any other satisfiable day field matches within 372 days |
| CronRate.MinInterval | agents/app/cron.py:199-234 | the sampled minimum is the least gap between consecutive sampled fires, and none exactly when fewer than two fires are found |
| CronRate.SampleFires | agents/app/cron.py:221-229 | the sampling loop collects the fires the definition names |
| CronRate.CheckCron | agents/app/scheduler.py:408-440 | a new cron is scheduled exactly when no sampled gap is below the floor and a next run exists, at that next run |
| CronRate.RejectionIsJustified | agents/app/cron.py:199-234 | a reported interval lies between two fires with none in between |
| CronRate.GuardIsSound | agents/app/scheduler.py:416-431 | whatever the floor and the instant, unless only the 29th of February fires no accepted cron has two minutes closer than the floor |
| CronRate.GuardExact | agents/app/scheduler.py:416-431 | a cron with two minutes closer than the floor is accepted if and only if it fires on the 29th of February only and is asked in the last firing hour before a gap, with the remaining minutes spaced |
| CronRate.AtMostFourAnHour | agents/app/config.py:88 | with the default 15-minute floor an accepted cron fires at most four times in every clock hour, except if and only if it has more than four minutes, fires on the 29th of February only and is asked in the last firing hour before a gap |
| CronRate.FourMinutes | agents/app/cron.py:158-175 | no hour has more than four fires if and only if the minute field has at most four values |
| CronRate.GuardLetsThrough | agents/app/scheduler.py:416-431 | minutes 0, 1 and 30 of the 29th of February are accepted a minute into 2096-02-29 |
| CronRate.SixAnHour | agents/app/scheduler.py:416-431 | minutes 0 to 4 and 30 of the 29th of February are accepted five minutes into 2096-02-29, and fire six times in that hour |
| Schedules.OneShotOnce | agents/app/schedules.py:239-285 | a one-shot schedule is claimed at most once, by however many pods |
| Schedules.CanceledForever | agents/app/schedules.py:349-361 | once canceled, a schedule is never claimed or re-armed again |
| Schedules.ClaimsAscend | agents/app/scheduler.py:184-199 | claims of a recurring schedule consume strictly later matching minutes, after its creation and never in the future, also across pauses and re-arms |
| Schedules.ClaimsBounded | agents/app/scheduler.py:184-199 | claims never outnumber the minutes the cron has matched since creation |
| Schedules.NextRunIsFirst | agents/app/scheduler.py:184-199 | a next run is the first firing minute after now, and there is none only when none lies within 1461 days |
| Schedules.HistoryGrows | agents/app/schedules.py:239-361 | along every run consumed fires are only appended |
| Schedules.NextKeepsInv | agents/app/schedules.py:112-361 | create, claim, pause, re-arm and both halves of a cancel keep a row consistent: a next run exactly while scheduled, later than every consumed one |
| ScheduleTable.Table.ClaimDue | agents/app/schedules.py:239-285 | the claim wins exactly when the row is scheduled with a next run not after now, and then schedules the row for the next one given or completes it |
| ScheduleTable.Table.PauseForReauth | agents/app/schedules.py:288-308 | pauses exactly a scheduled row and takes its next run away |
| ScheduleTable.Table.RearmPaused | agents/app/schedules.py:311-346 | re-arms every paused row of the session and no other, a one-shot for now and a recurring one for its first fire after now, completing an exhausted cron, and reports those scheduled again |
| ScheduleTable.AgentScheduler.Fire | agents/app/scheduler.py:158-286 | the first guard that fails decides the outcome: a busy session, a dead token, a lost claim, a missing session, a quicker turn; a turn is spawned exactly when none does, and rows, busy sessions and tokens follow the outcome |
| ScheduleTable.ShotLeaves | agents/app/scheduler.py:158-286 | what each outcome leaves of the row: a turn uses the run up, a missing session and a dead token leave nothing planned, anything else changes nothing |
| ScheduleTable.AgentScheduler.Tick | agents/app/scheduler.py:145-156 | for any interference between two shots and any moment of stopping: the shots start from what others made of the table and leave what the guards decide, each row due when listed is tried once unless the process stops, and a turn is spawned only by winning the claim on a then due row with a live token and no turn on its session; if nobody interferes no due row is left due unless its session is busy |
| ScheduleTable.AgentScheduler.Shoot | agents/app/scheduler.py:158-286 | a row is fired as it was listed, whatever has become of it since |
| ScheduleTable.TakenStep | agents/app/scheduler.py:145-156 | one more shot, taken at whatever others have left, keeps the account of the poll |
| ScheduleTable.PolledStep | agents/app/scheduler.py:145-156 | with nobody interfering, one more shot keeps the account of a quiet poll |
| Emails.NormTwice | mail/app/campaigns.py:69-70 | normalising an address twice changes nothing |
| Emails.NormMeaning | mail/app/campaigns.py:69-70 | the normal form has no capitals and no white space around it, and two addresses share it if and only if they agree up to letter case once outer white space is dropped |
| Text.StripCuts | mail/app/campaigns.py:69-70 | only white space is stripped, and from the ends only |
| CampaignLedger.SinceIsToday | mail/app/campaigns.py:551-564 | counting rows from the start of today counts exactly today's |
| CampaignLedger.SentOnCounts | mail/app/campaigns.py:535-564 | every message sent from the domain on the day counts, campaign or one-off, and each once |
| CampaignLedger.SentForCounts | mail/app/campaigns.py:410-427 | every message a campaign has sent counts once |
| CampaignLedger.RoomAtFirst | mail/app/campaigns.py:694-717 | a budget within today's remainder fits under the cap on whatever day it is spent |
| CampaignLedger.SendFits | mail/app/campaigns.py:802-829 | a send within the budget keeps every domain and day under the cap, also across midnight |
| CampaignLedger.SendIsSpaced | mail/app/campaigns.py:103-143 | a send to somebody not suppressed keeps any two messages to one person in different campaigns and more than the cooldown apart; with no cooldown there is only one |
| CampaignLedger.SuppressionIsExact | mail/app/campaigns.py:103-143 | a message breaks the spacing of the log if and only if one of the two checks holds it back |
| CampaignAccepted.AcceptedToday | mail/app/campaigns.py:551-564 | while every accepted message has its row, no domain has more accepted on this or a later day than the log counts, although a row may be dated the day after its mail |
| CampaignAccepted.MailSent | mail/app/campaigns.py:802-829 | a send within the budget to somebody the log does not suppress keeps caps and spacing of what is logged and of what is accepted |
| CampaignAccepted.LimitsFollow | mail/app/campaigns.py:103-143 | the ledger's limits in plain terms: the daily count of each domain within the settings row or the default, and no address, however spelt, sent to again within the cooldown or twice in a campaign |
| CampaignPacing.Budget | mail/app/campaigns.py:694-717 | balanced mode budgets every domain with room, sequential mode only the first, each with what the day has left up to the cycle limit |
| CampaignPacing.LeftToday | mail/app/campaigns.py:694-717 | what is left for a domain is the cap less everything sent from it today |
| CampaignPacing.PickDomain | mail/app/campaigns.py:719-726 | picks a domain with budget left unless there is none, in balanced mode one with the most |
| CampaignPacing.PicksFirst | mail/app/campaigns.py:719-726 | of several candidates the first in order is picked |
| CampaignPacing.BalancedStaysEven | mail/app/campaigns.py:719-726 | after any series of attempts no used domain has fallen more than one behind another |
| CampaignPacing.AttemptsSnoc | mail/app/campaigns.py:802-829 | each further attempt picks from, and spends, what the ones before have left |
| CampaignCycle.CycleLimits | mail/app/campaigns.py:694-717 | a whole tick sends from a domain at most the cycle limit and at most what the day had left, and in sequential mode only from the first domain with room |
| CampaignCycle.CycleMailboxes | mail/app/campaigns.py:735-751 | a tick sends only from the owner's own active mailboxes, each for its own domain, and has every domain with one in its reach |
| CampaignCycle.DealtWith | mail/app/campaigns.py:778-799 | recipients dealt with are that many fewer pending ones |
| CampaignCycle.SoFarTurn | mail/app/campaigns.py:801-829 | each turn of a cycle keeps its account: what was sent is what was accepted and what was spent, and mailboxes have taken turns |
| CampaignCycle.WarrantedNext | mail/app/campaigns.py:801-829 | whoever a turn moves to sent, failed or suppressed has a row, or an earlier contact, in the log to show for it |
| CampaignPool.PendingOf | mail/app/campaigns.py:780-797 | the oldest pending recipients of the campaign, up to the limit, none before the last of them skipped |
| CampaignMailboxes.GroupByDomain | mail/app/campaigns.py:735-751 | every domain of the owner with exactly its active mailboxes, in order, and no other domain |
| CampaignMailboxes.UsesOfMailbox | mail/app/campaigns.py:815-817 | of n attempts from a domain with k mailboxes, taking turns, the jth makes n / k, and one more if j is below the remainder |
| CampaignMailboxes.TurnsAreEven | mail/app/campaigns.py:815-817 | two active mailboxes of one domain differ by at most one attempt |
| CampaignMailboxes.NextTurn | mail/app/campaigns.py:815-817 | each attempt from the mailbox whose turn it is keeps the turns |
| CampaignPool.Merge | mail/app/campaigns.py:214-254 | every usable address ends up in the pool exactly once, pre-marked as the suppression sets say, and the counts add up |
| CampaignPool.UsablesMeaning | mail/app/campaigns.py:202-209 | exactly the items with an at sign enter, each under its normal form |
| CampaignPool.UsablesCount | mail/app/campaigns.py:202-209 | as many enter as items have an at sign |
| CampaignPool.OnePerAddress | mail/app/campaigns.py:214-229 | no two recipients of a campaign have one address, however it is spelt |
| CampaignPool.AttemptTallies | mail/app/campaigns.py:410-427 | whatever the answer to a send, a campaign's recipients counted as sent and its sent rows in the log stay equally many |
| CampaignPool.MessagedCounts | mail/app/campaigns.py:410-427 | every recipient a campaign has sent to counts once |
| CampaignPool.NewcomersAreUnsent | mail/app/campaigns.py:230-245 | merged recipients add nothing to the sent count |
| CampaignPool.MovedCount | mail/app/campaigns.py:835-849 | a cycle never adds pending recipients and processing one removes one |
| CampaignEngine.Engine.SuppressionReason | mail/app/campaigns.py:136-143 | the campaign's own log first, then the shared one within the cooldown |
| CampaignEngine.Engine.SendOne | mail/app/campaigns.py:851-946 | a send logs one row for this recipient and mailbox and moves the recipient to sent or failed as Gmail answers; a dead token disables the mailbox |
| CampaignEngine.Engine.Screen | mail/app/campaigns.py:805-811 | a recipient is suppressed exactly when the log gives a reason at send time |
| CampaignEngine.Engine.TryRecipient | mail/app/campaigns.py:802-829 | one recipient is suppressed exactly when the log gives a reason, else sent to from the picked domain and the mailbox whose turn it is, with the budget charged on success only |
| CampaignEngine.Engine.RunCycle | mail/app/campaigns.py:799-832 | over a cycle what was sent is what was accepted and what was spent, domain by domain and attempt by attempt |
| CampaignEngine.Engine.Tick | mail/app/campaigns.py:728-849 | a tick keeps caps, spacing and the pool, draws its budget up from the log at an instant of the tick (what the day has left up to the cycle limit, for every domain with room or the first), only moves recipients out of pending, each for a reason the log bears out, stays even over domains, takes turns over the owner's active mailboxes, goes on until its budget is used up or everybody it took up is dealt with (four for every send allowed and twenty more, or all), completes the campaign when nobody is pending, and makes progress whenever it has room |
| CampaignEngine.Engine.EnforceDirectSend | mail/app/campaigns.py:586-613 | a one-off send is refused exactly when somebody was contacted within the cooldown, under any spelling of the address, or, else, when the cap would be passed |
| CampaignEngine.Engine.RecordDirectSend | mail/app/campaigns.py:616-640 | one row per distinct address, all dated alike, within caps and spacing |
| CampaignEngine.Engine.DirectSend | mail/app/routers/mail.py:622-700 | for any answers of Gmail: what is refused, accepted, logged and disabled is exactly what the checks and the two answers decide, and caps and spacing are kept, also across midnight; only a send read back is logged |
| CampaignOneOff.Addresses | mail/app/campaigns.py:592 | the distinct normalised addresses of a request |
| CampaignOneOff.AddressesMeaning | mail/app/campaigns.py:592 | every address of a request once, whatever its spellings, and nothing else |
| CampaignOneOff.AnySpelling | mail/app/campaigns.py:592-602 | another spelling of a contacted address does not get past the log |
| CampaignOneOff.Recorded | mail/app/campaigns.py:616-640 | mail accepted at one moment and logged at a later one keeps caps and spacing on both counts |
| CampaignOneOff.SendKnows | mail/app/routers/mail.py:651-700 | a one-off send adds accepted mail the log does not know exactly when it was accepted and its copy could not be read back |
| CampaignEngine.Engine.MergeRecipients | mail/app/campaigns.py:184-254 | pool and counts as for the merge, with the suppression taken from the log; every usable item is in the pool under some spelling |
| CampaignEngine.Drive | mail/app/campaigns.py:675-692 | any serialized run of single ticks, whole rounds, one-off sends, merges and user changes keeps the daily cap of every domain, nobody contacted twice under any spelling, recipients only ever leaving pending, and each campaign's sent recipients as many as its logged sends; accepted mail stays what the log says was sent, and so within the same limits, if and only if no allowed one-off send was accepted with an unreadable copy |
| CampaignEngine.ManyInADay | mail/app/routers/mail.py:651-700 | a run in which any number of accepted one-off sends reaches one person at one instant, whatever the cap and the cooldown, and the log stays empty |
| JobStore.FoldIsMonotone | jobs/app/store.py:74-94 | along every event sequence a terminal status is never left and the newest event time never decreases |
| JobStore.RedeliveryChangesNothing | jobs/app/store.py:74-130 | with strictly increasing timestamps, delivering already delivered events again anywhere leaves the row unchanged |
| JobStore.DeliveredIsInert | jobs/app/store.py:74-130 | a delivered event applied again changes nothing |
| JobStore.ReplayIsNoOp | jobs/app/store.py:74-130 | replaying any parseable history in full, ties and disorder included, is a no-op |
| JobStore.WhyRefused | jobs/app/store.py:74-94 | an event newer than the row its history ends in is a non-terminal one that a terminal row refused, and a terminal one that a non-terminal row has not taken is older than it |
| JobStore.NewestWins | jobs/app/store.py:96-130 | over any history, of the events taken: the status is the last one's, progress, exit status, names and every meta key are those of the last event that gives them, start and end those of the first started and the first final one |
| JobStore.TableIsNewest | jobs/app/store.py:56-130 | so it is in the table, whatever other jobs' events come between |
| JobStore.AdmitsTaken | jobs/app/store.py:74-94 | an event is taken exactly when nothing taken before was final, unless it is too, and nothing was later |
| JobStore.RowsAreIndependent | jobs/app/store.py:67-76 | events of one job never touch another's row |
| JobStore.Store.ApplyEvent | jobs/app/store.py:56-130 | the in-place upsert applies exactly the admitted events and leaves every other row alone |
| JobStore.Job.Overwrite | jobs/app/store.py:100-130 | the field-by-field overwrite keeps old values where the event has none and stamps start and end once |
| Csv.ParseCsvRows | mailui/src/api.ts:429-469 | the index loop computes the rows of the scanner |
| Csv.ParseCsv | searchui/src/csv.ts:2-38 | for every text the other parser returns the same rows without the all-blank ones |
| Csv.RoundTrip | mailui/src/api.ts:429-469 | parsing undoes the encoder for every list of non-empty rows, whether records end in CRLF, LF or CR |
| Csv.RoundTripUnterminated | mailui/src/api.ts:464-467 | without the final line break it does if and only if the last record is not a single empty cell |
| Csv.FilteredRoundTrip | searchui/src/csv.ts:29-36 | the filtering parser undoes the encoder if and only if no row is blank |
| Csv.ScanCell | mailui/src/api.ts:434-463 | scanning an encoded cell yields its text, quotes and line breaks included |

## Left out

- HTTP, Gmail, Apollo, OpenAI, Milvus, SQL and Mongo themselves: each is a parameter, a free choice or a map of rows.
- Routers, user interfaces, configuration classes, tracing and authentication: thin wrappers.
- More than one completion event per embedding stream: a cancel and a close can race, so exactly one is not claimed.
- Terminal absorption under the writes of `jobs/app/control.py`, which bypass the guards.
- Gaps between the last fire of one hour and the first of the next, which the rate guard samples but does not bound.
- Crash-time sending exactly once, ticks of one campaign running concurrently, and recipients added during a tick.
- Exceptions inside a tick or a poll other than the modelled answers.
- The order in which rows due at one tick and running campaigns are taken: any order is allowed. One-off addresses are
  logged in the order they first come instead of sorted.
- A malformed address or a missing message to reply to, which end a one-off send before anything is sent.
- Overflow of the power of two in the backoff, cancellation during a backoff sleep, and round-robin reading of several jobs by one subscriber.
- Cron fields as text: items are already split into integers. Years after 9999, which the date type cannot hold.
- WritePressure.UpsertLeadVectors: the gate around each attempt is left to the gate's own model.
- EmbedAccounting.ScheduleEmbeddingBatch: one batch while the stream may be closed but not cancelled; batches interleaved with each other and with cancellation are in the transition system beside it. White space is that of ASCII.
- EmbedPipeline.NextKeepsInv: cancelling the embedding tasks from outside the pipeline is not a step.
- Emails.NormTwice: case folding and white space are those of ASCII.
- Emails.NormMeaning: letters are those of ASCII, so other scripts have no case.
- CampaignEngine.Engine.Tick: the mirror of a sent message into the archive is not modelled.
- ScheduleTable.AgentScheduler.Fire: one shot is a single step, so what others do between its guard, its claim and its spawn is the business of the transition system of `Schedules`.
