# Verification models of the CRM back end

These Dafny modules model the parts of the back end whose correctness depends on more than one function: a leased
delivery protocol, a reminder scheduler with dedup stamps, a sliding-window limiter, an avatar key overwritten by
interleaved handlers, two query paths that must agree, an encrypted append-only history, and several smaller
algorithms with a round trip or a conservation law. `dafny verify dfyconfig.toml` checks everything.

## What is modelled

**Discord delivery.** `DiscordChunking` is the greedy packer: it loses and reorders nothing, is minimal among all
order-preserving partitions, and extending its input changes no chunk but the last. `DiscordDelivery` is the sender as
the source writes it (claim, post, four finalisers, one loop), refined by the function `Send`; progress is proved
about that function. `DeliveryProtocol` puts any number of such senders side by side as a step system with a clock,
crashes at every step, posts that may be accepted whatever the answer says, and unfenced finalisers. Ordering
(`FirstAcceptancesInOrder`, `AllSentMeansAllRead`) needs no timing hypothesis. Exclusivity does: `DeliverySafety`
assumes `Timely` (whoever holds a claim finalises before its lease ends, which is what the comment on
`CHUNK_LEASE_TTL_MS` promises), and two concrete runs show that without it both the bound on duplicates and the
absorption of SENT fail. `DeliveryLeases` asks what is left in every run, timely or not: a second claim inside a
running lease needs a refused post in between, the bound on duplicates is lost exactly when two senders record a
success, and a SENT chunk nobody holds is settled for good. `DeliveryEndToEnd` shows that the loop is a run of the
protocol and that the channel, read with repeats skipped, is always a prefix of the digest and in the end the whole
digest, and that every run can still be finished (`NoRunGetsStuck`). `TickPostsExactly` says, without the loop, which
chunks a tick posts and what each answer does to its row.

**Call reminders.** `CallReminders` models create, reschedule, cancel, remove and the tick, with stamps, the
compensating delete and the anchor; `RemindersAreSafe` holds over every run, and `ReminderIsQueuedExactlyWhen` reads
every reminder off what was last said about the call. `ReminderTimeline` proves when exactly one reminder goes out,
that ten minutes between ticks is tight, and that one failed creation is made good at the five-minute cadence. A stamp
whose compensating delete fails loses the reminder for good (`StuckStampLosesTheReminder`). The fields `version`,
`loose`, `published` and `recorded` of these models are history variables: nothing reads them but the statements.

**Analytics.** `Analytics` gives the filters one meaning (`Wanted`) and proves both query builders against it, the SQL
one in three-valued logic. `OpportunityHeatmap` lets the two GROUP BY queries return their rows in any order and proves
that the 168 cells sum to the overview and that each cell's country list counts its posts by shown name.

**Credentials.** `EncryptionPool` is the key pool by version; the cipher is only a round-trip law. `SecretPayloads` is
the merge, cleaning and diff of a payload, `CustomFieldBags` the sorted and joined comparison of custom fields, and
`CredentialHistory` the service: over every serial run of creates, edits, restores, crashes and rotations, history
plus live record open to exactly the payloads that were ever live, and what is given is what is stored
(`EditStoresWhatIsGiven`).

`Sorting`, `Splitting` and `Sieving` are the library sort, the `split` and `join`, and what it means for a filter to
keep exactly the wanted elements in order; the modules share them.

**Smaller cores.** `RateLimiter` against the full log, with `LimiterMemory` for what it forgets, `LateReports` (the
bounded-retry queue), `Avatars` (handlers interleaved at every await), `UrlCodec` and `DownloadUrls` (the printer and
parser of download URLs, over UTF-16, UTF-8 as in section 3 of RFC 3629 and percent-encoding as in section 2.1 of RFC
3986), `PayrollBackfill`, `FiscalCalendar`, `BackupRetention`.

## Where the code and its promises differ

- `src/discord-integration/discord-chunking.ts:155-158` calls an over-cap embed impossible after normalisation; a normal
  embed with 25 full fields costs 32000 (`NormalEmbedCanExceedTheCap`). The digests never build one
  (`DigestsRespectBothCaps`).
- `src/discord-integration/discord-bot.client.ts:129-151` turns a timeout into an answer with status 0, so the sender
  treats it as a recoverable failure and releases the lease, although the message may have been accepted. The promise at
  `src/discord-integration/discord-schedulers.service.ts:630-636`, that no other tick sends again within the lease,
  is then lost: `RefusedPostIsSentAgain` is a timely run that does it at time 0. Such a refusal is the only way
  (`SecondClaimNeedsARefusal`), and it opens the chunk exactly from the end of its retry delay on
  (`RefusalReopensExactlyAfterItsDelay`).
- `src/auth/auth.service.ts:295-321` writes `avatarKey` and then reads the profile back, so `setAvatar` can throw
  after writing; the handler then deletes the object the stored `avatarKey` refers to (`LostWriteDangles`).
  `DanglesExactlyWhen` gives the exact condition; under the source's assumption that a throw means nothing was written
  the stored key never dangles.
- `scripts/normalize-file-urls.ts:25-40` needs a base URL whose first marker is its own: a base containing `/file/` or
  ending in `/file` breaks the parse, and no other does (`ExtractKeyUndoesTheUrl`, `CleanBaseMeans`).
- The limiter's sweep is only faithful when all callers share one window (`FaithfulIffOneWindow`); both callers do.
- Outside production a prune can close the migration gate, and one that gets through only part of its candidates can
  open it before a migration (`PartialPruneOpensAGate`); four theorems give the exact conditions for both verdicts.
- `src/client-calls/call-reminder.service.ts:239-266` takes the stamp back whenever creating the event throws, although
  the event row may have landed (`src/notification/notification.service.ts:74-91`); the next tick then queues the
  reminder again (`LandedThrowRepeats`). `RemindersAreSafe` says that this is the only way.
- `src/discord-integration/discord-late-report.service.ts:108` builds the card outside the try block, so a stored date
  that cannot be printed aborts every tick at that row (`BlockedStays`). Enqueueing never stores one.
- `src/credentials/credentials-account.service.ts:777-809` does not compare security answers, so an edit of only those
  is dropped (`AnswersAloneAreNotStored`). Three more changes can be missed, against the comment that every edited
  field surfaces: a bar inside a recovery code (`SplitCodeCanBeMissed`), an equals sign in a label
  (`RenamedFieldCanBeMissed`) and a line break in a value (`BrokenFieldCanBeMissed`). For all payloads the exact
  conditions are `CodesCompareExactlyWhen` for codes, `BagsAgreeExactlyWhen` for lists of fields and
  `DiffIsEmptyExactlyWhen` for the whole diff; `LinesAgreeExactlyWhen` is the one for two single fields, and
  `PlainDiffIsEmptyExactlyWhen` says what an edit can lose when none of the three occurs and no code is blank.
- `src/credentials/credentials-account.service.ts:181-183` means to keep the fields a caller did not pass. The spread
  keeps exactly the keys that are absent from the object (`PartialUpdateKeepsAbsentKeys`); an object that carries every
  declared key, as a class instance does when declared fields become own properties (compile target `ES2023`,
  `tsconfig.json:11`), replaces the whole payload (`FullObjectReplacesThePayload`). The same happens when the stored
  record no longer opens (`LostKeyReplacesThePayload`).

## Model

| member | source | states |
|---|---|---|
| `DiscordChunking.Truncate` | src/discord-integration/discord-chunking.ts:66-70 | a string that fits is kept; a longer one becomes exactly the maximum long, a prefix followed by an ellipsis |
| `DiscordChunking.NormaliseCuts` | src/discord-integration/discord-chunking.ts:77-110 | title, description, footer text, author name, field names and values are each kept up to 256, 4096, 2048, 256, 256 and 1024 characters and cut to exactly that beyond; the first 25 fields stay, and nothing else changes |
| `DiscordChunking.KeptExactlyWhen` | src/discord-integration/discord-chunking.ts:77-110 | an embed is sent as it is exactly when it is within all these limits |
| `DiscordChunking.NormaliseIdempotent` | src/discord-integration/discord-chunking.ts:77-110 | normalising a normal embed changes nothing, so a chunked embed is stable under re-chunking |
| `DiscordChunking.EmbedCharCount` | src/discord-integration/discord-chunking.ts:118-135 | the loop counts title, description, field names and values, footer text and author name |
| `DiscordChunking.EveryTextCounts` | src/discord-integration/discord-chunking.ts:118-135 | each text adds its length to the cost, whatever else the embed holds; colours, URLs and icons add nothing |
| `DiscordChunking.ChunkEmbeds` | src/discord-integration/discord-chunking.ts:160-186 | the loop returns an order-preserving partition of the normalised input into admissible, non-empty chunks, with the fewest chunks of all such partitions; embeds within the limits come out as they were given |
| `DiscordChunking.PackPartitions` | src/discord-integration/discord-chunking.ts:160-186 | concatenating the chunks gives the normalised input back; no chunk is empty |
| `DiscordChunking.OverCapOnlyAlone` | src/discord-integration/discord-chunking.ts:155-186 | a chunk is over a cap only when it is one embed that is over the cap by itself |
| `DiscordChunking.PackIsMinimal` | src/discord-integration/discord-chunking.ts:160-186 | no order-preserving partition with admissible parts has fewer parts |
| `DiscordChunking.PackExtends` | src/discord-integration/discord-chunking.ts:160-186 | appending embeds leaves every chunk but the last as it was, and the last only grows |
| `DiscordChunking.DigestsRespectBothCaps` | src/discord-integration/discord-embed-builder.service.ts:96-158 | chunks of title-and-description cards, as the daily, weekly and absence digests build them, hold at most 10 embeds and 6000 characters without exception, and are as few as those caps allow |
| `DiscordChunking.NormalEmbedCanExceedTheCap` | src/discord-integration/discord-chunking.ts:155-158 | a normal embed costing 32000 exists, against the comment |
| `DiscordDelivery.ChunkSender.ClaimChunk` | src/discord-integration/discord-schedulers.service.ts:531-582 | a chunk is claimed exactly when the lock is free, its row is not SENT and no lease on it is running; the claim counts an attempt, leases the row for two minutes and writes nothing else |
| `DiscordDelivery.ChunkSender.FinaliseSuccess` | src/discord-integration/discord-schedulers.service.ts:584-593 | the row becomes SENT, whatever it was |
| `DiscordDelivery.ChunkSender.FinaliseRateLimited` | src/discord-integration/discord-schedulers.service.ts:595-608 | the row stays pending and leased until the retry time |
| `DiscordDelivery.ChunkSender.FinaliseRecoverableFailure` | src/discord-integration/discord-schedulers.service.ts:616-628 | the row becomes pending with its lease released |
| `DiscordDelivery.ChunkSender.FinaliseAmbiguous` | src/discord-integration/discord-schedulers.service.ts:637-642 | only the error is recorded; the lease runs on |
| `DiscordDelivery.ChunkSender.SendChunked` | src/discord-integration/discord-schedulers.service.ts:431-514 | the loop leaves the rows, acceptances and failure flag that `Send` describes |
| `DiscordDelivery.TickPostsExactly` | src/discord-integration/discord-schedulers.service.ts:431-514 | a tick posts a chunk exactly when every chunk before it was SENT or is answered Ok and this one is open; it writes these rows and no other, as each answer says, logs the accepted ones in order, and fails exactly when one is not answered Ok |
| `DiscordDelivery.FlagCountsFailures` | src/discord-integration/discord-schedulers.service.ts:489-513 | the flag of a tick counts the posts it issued that were answered other than Ok, of which there is at most one |
| `DiscordDelivery.SentIsNeverRedone` | src/discord-integration/discord-schedulers.service.ts:451-513 | a tick leaves every SENT row as it was and posts no chunk that was SENT |
| `DiscordDelivery.TickFinishesOrFails` | src/discord-integration/discord-schedulers.service.ts:451-513 | an unobstructed tick meets a failing post or leaves every chunk SENT |
| `DiscordDelivery.TicksFinishOrFail` | src/discord-integration/discord-schedulers.service.ts:451-513 | over any number of unobstructed ticks the digest is finished, or as many posts as ticks were answered other than Ok |
| `DiscordDelivery.DigestCompletes` | src/discord-integration/discord-schedulers.service.ts:451-513 | when at most F of the posts issued are answered other than Ok, F + 1 unobstructed ticks leave every chunk SENT |
| `DeliveryProtocol.OrderStep` | src/discord-integration/discord-schedulers.service.ts:439-513 | every protocol step keeps the ordering invariant, with expired leases, stale finalisers and crashes allowed |
| `DeliveryProtocol.FirstAcceptancesInOrder` | src/discord-integration/discord-schedulers.service.ts:439-513 | in every run, before a chunk is first accepted all earlier chunks were accepted |
| `DeliveryProtocol.OrderedLogReadsUpTo` | src/discord-integration/discord-schedulers.service.ts:439-513 | the first occurrences of an ordered log are 0, 1, 2, ... in order |
| `DeliveryProtocol.AllSentMeansAllRead` | src/discord-integration/discord-schedulers.service.ts:439-513 | once every chunk is SENT the first occurrences in the accepted log are all chunks in order |
| `DeliverySafety.LeaseStep` | src/discord-integration/discord-schedulers.service.ts:431-642 | a step from a timely state to a timely state keeps exclusivity, ownership and recorded-once |
| `DeliverySafety.OneSenderPerChunk` | src/discord-integration/discord-schedulers.service.ts:10-18 | in every timely run at most one worker is between claim and finalise of a chunk |
| `DeliverySafety.SentIsAbsorbing` | src/discord-integration/discord-schedulers.service.ts:531-642 | in every timely run a SENT row stays SENT |
| `DeliverySafety.DuplicatesAreUnrecordedPosts` | src/discord-integration/discord-schedulers.service.ts:584-642 | in every timely run a chunk is accepted at most once plus once per accepted post whose success was never recorded |
| `DeliverySafety.LateSenderBreaksTheBound` | src/discord-integration/discord-schedulers.service.ts:584-593 | a concrete untimely run accepts and records one chunk twice |
| `DeliverySafety.LateSenderUndoesSent` | src/discord-integration/discord-schedulers.service.ts:595-642 | a concrete untimely run takes a SENT row back to pending |
| `DeliverySafety.SentStaysExactlyUntil` | src/discord-integration/discord-schedulers.service.ts:531-642 | in any run, timely or not, a SENT row stays SENT exactly until a sender that holds its chunk commits a claim or finalises a refused post |
| `DeliveryLeases.SecondClaimNeedsARefusal` | src/discord-integration/discord-schedulers.service.ts:616-642 | in every run, if a claim of a chunk commits while the lease of an earlier claim of it still runs, a refused post of that chunk was written down in between |
| `DeliveryLeases.RefusalReopensExactlyAfterItsDelay` | src/discord-integration/discord-schedulers.service.ts:595-628 | once a refusal is written down, a claim of the chunk succeeds exactly when no retry delay of it is still running |
| `DeliveryLeases.RefusedPostIsSentAgain` | src/discord-integration/discord-schedulers.service.ts:630-636 | a concrete timely run in which a chunk is accepted twice at time 0, inside its first lease, against the comment |
| `DeliveryLeases.BoundHoldsExactlyWhile` | src/discord-integration/discord-schedulers.service.ts:584-642 | in every run a chunk is accepted at most once plus once per unrecorded accepted post exactly while at most one accepted post of it is recorded |
| `DeliveryLeases.SecondSuccessExactlyWhen` | src/discord-integration/discord-schedulers.service.ts:584-593 | in every run that bound is lost exactly when two different steps so far have finalised a success of the chunk |
| `DeliveryLeases.SentAndUnheldIsFinal` | src/discord-integration/discord-schedulers.service.ts:531-642 | in every run the row of a SENT chunk that no sender holds never changes again, and no success of it is recorded any more |
| `DeliveryLeases.SecondSuccessWasHeld` | src/discord-integration/discord-schedulers.service.ts:531-593 | whenever a chunk's success is recorded twice, another sender already held the chunk when the first was recorded |
| `DeliveryLeases.AttemptsCountPosts` | src/discord-integration/discord-schedulers.service.ts:531-582 | in every run, with any crashes, the attempts of a row are the posts that were issued for its chunk |
| `DeliveryEndToEnd.SendIsARun` | src/discord-integration/discord-schedulers.service.ts:431-514 | a lone tick of the loop is a run of the protocol that ends in the loop's rows and log |
| `DeliveryEndToEnd.NoRunGetsStuck` | src/discord-integration/discord-schedulers.service.ts:400-431 | every run can be continued to one in which every chunk is SENT, whatever crashed and whatever leases are open |
| `DeliveryEndToEnd.ReaderSeesAPrefix` | src/discord-integration/discord-schedulers.service.ts:439-513 | at any time the channel, repeats skipped, shows a prefix of the normalised embeds in order, with the content on the first message only |
| `DeliveryEndToEnd.ReaderSeesTheDigest` | src/discord-integration/discord-schedulers.service.ts:439-513 | when every chunk is SENT the channel, repeats skipped, shows every normalised embed once, in order, the content on the first message and no empty message; embeds within the limits show as they were given |
| `CallReminders.CallService.Create` | src/client-calls/client-calls.service.ts:108-143 | refuses a start that is not in the future, otherwise adds the call with a fresh id |
| `CallReminders.CallService.Update` | src/client-calls/client-calls.service.ts:369-422 | field by field: status, start, anchor and the kept ones; a changed start moves the anchor and purges the call's stamps in the same transaction, and is refused exactly when it is less than 30 minutes ahead and the update neither finishes nor cancels the call |
| `CallReminders.CallService.Remove` | src/client-calls/client-calls.service.ts:437-441 | the call goes with its stamps |
| `CallReminders.CallService.SendReminderIdempotent` | src/client-calls/call-reminder.service.ts:213-271 | stamp first, then event, with the compensating delete, for every outcome, a landed event whose call throws included; a stamped pair does nothing |
| `CallReminders.CallService.RunTick` | src/client-calls/call-reminder.service.ts:101-109 | both windows are handled over the given calls, or nothing while a tick is running |
| `CallReminders.CallService.Tick` | src/client-calls/call-reminder.service.ts:115-211 | the nested loops handle exactly the due calls of each window |
| `CallReminders.DeskStep` | src/client-calls/call-reminder.service.ts:121-180 | every operation keeps: stamps belong to the current schedule, every event fits its call, and an event of the current schedule is stamped unless its stamp was taken back |
| `CallReminders.RemindersAreSafe` | src/client-calls/call-reminder.service.ts:121-180 | over every run each event is for a call not yet started, between offset - 10 and offset + 5 minutes ahead, with the threshold of notice; no schedule gets a reminder twice, exactly unless a step queues again what an earlier one queued while its call threw and the stamp was taken back |
| `CallReminders.CallIsAsLastSet` | src/client-calls/client-calls.service.ts:369-422 | in every run a call has the start, anchor and status that the last steps to set them gave it |
| `CallReminders.ReminderIsQueuedExactlyWhen` | src/client-calls/call-reminder.service.ts:115-211 | in every run a step queues a reminder exactly when its attempt goes well, no stamp is left, the status last set is scheduled, and the start last set is 50 to 65 minutes (up to 15) ahead and at least an hour (ten minutes) after the step that set it |
| `CallReminders.FinishedIsNotReminded` | src/client-calls/client-calls.service.ts:369-422 | after an update to completed or cancelled the call has that status and no attempt does anything |
| `CallReminders.RemovedIsNotReminded` | src/client-calls/client-calls.service.ts:437-441 | a removed call is gone for the rest of every run and gets no reminder any more |
| `CallReminders.RepeatsExactlyWhen` | src/client-calls/call-reminder.service.ts:239-266 | one step repeats a reminder exactly when it queues one that was queued before and lost its stamp |
| `CallReminders.LandedThrowRepeats` | src/notification/notification.service.ts:74-91 | a concrete run in which the event row lands, the call throws and the next tick queues the same reminder again |
| `CallReminders.WindowIsARun` | src/client-calls/call-reminder.service.ts:121-180 | a window of the tick is a run of single handlings, so the invariant holds inside ticks too |
| `CallReminders.TickIsARun` | src/client-calls/call-reminder.service.ts:115-211 | a whole tick is a run too: all its calls in the 60-minute window, then all of them in the 10-minute one |
| `ReminderTimeline.OneReminderIffSomeTickSucceeds` | src/client-calls/call-reminder.service.ts:213-266 | where no call throws after its event landed, there is one reminder if some visit succeeds and no due visit before it left its stamp without an event, and none otherwise |
| `ReminderTimeline.ReminderGoesOutExactlyWhen` | src/client-calls/call-reminder.service.ts:213-271 | for every mix of outcomes: a first reminder if and only if some due visit queues one and none before it left a stamp, a second if and only if two such visits do |
| `ReminderTimeline.StuckStampLosesTheReminder` | src/client-calls/call-reminder.service.ts:258-264 | a due visit that leaves its stamp before any event was queued costs the reminder for good, wherever in the run it is |
| `ReminderTimeline.ExactlyOneReminder` | src/client-calls/call-reminder.service.ts:61-74 | ticks at most ten minutes apart and successful creations at the due visits give exactly one reminder to every call with enough notice |
| `ReminderTimeline.OneFailureIsRetried` | src/client-calls/call-reminder.service.ts:61-74 | at the five-minute cadence one clean failure at a due visit is made good in time |
| `ReminderTimeline.TenMinutesIsTight` | src/client-calls/call-reminder.service.ts:61-74 | with ticks one millisecond further apart than ten minutes a call can miss its 60-minute reminder, however long they go on |
| `Analytics.FiltersNarrow` | src/analytics/analytics.service.ts:773-813 | what the filters want: everything when none is set; each one narrows, on its own, what the others select |
| `Analytics.WantedInSieves` | src/analytics/analytics.service.ts:773-789 | the wanted posts of a window are all of them, in the order of the table |
| `Analytics.BuildWhere` | src/analytics/analytics.service.ts:773-789 | the where-object selects exactly the posts the filters want, null scores and locations included |
| `Analytics.WithMatchScoreConstraint` | src/analytics/analytics.service.ts:313-338 | the merged constraint selects the conjunction of the extra filter and what the merge keeps of the old one, which is all of it for where-objects of `BuildWhere` |
| `Analytics.MergeIsConjunctionExactlyWhen` | src/analytics/analytics.service.ts:306-338 | for every where-object, merging loses nothing with any extra constraint exactly when the old constraint is no exact score and no `not` number its bounds leave in, or no post meets the rest of the where-object |
| `Analytics.AggregateKpi` | src/analytics/analytics.service.ts:277-304 | received, qualified and hot count the selected posts, those of 50 or more, and those of 75 or more |
| `Analytics.GetSalesOverview` | src/analytics/analytics.service.ts:250-275 | both windows count exactly the wanted posts of that window; the previous one is as long as the current one and ends where it begins |
| `Analytics.WindowsAbut` | src/analytics/analytics.service.ts:250-262 | current and previous window split the doubled window: no post twice, none missed |
| `Analytics.JoinedIsAll` | src/analytics/analytics.service.ts:791-813 | in three-valued logic the joined condition is true exactly when every part is |
| `Analytics.BuildWhereSql` | src/analytics/analytics.service.ts:791-813 | the SQL condition is true of exactly the wanted posts of the window, so both paths select the same rows |
| `OpportunityHeatmap.GroupCountries` | src/analytics/analytics.service.ts:401-411 | the loop collects for every cell its country rows in the order they came, unknown places under one name |
| `OpportunityHeatmap.ShownNames` | src/analytics/analytics.service.ts:407 | a missing or blank country is shown as Unknown, every other one as it is |
| `OpportunityHeatmap.SortedKeeps` | src/analytics/analytics.service.ts:412-414 | sorting keeps what every name weighs; counts never rise along the list and equal counts follow the collation |
| `OpportunityHeatmap.CountriesAddUp` | src/analytics/analytics.service.ts:382-414 | however the rows come back, a cell's list counts its posts by shown name and loses none |
| `OpportunityHeatmap.IndexCells` | src/analytics/analytics.service.ts:416-435 | every row becomes the cell of its weekday and hour, and no other cell exists |
| `OpportunityHeatmap.LayOut` | src/analytics/analytics.service.ts:437-453 | the nested loops lay out 168 cells, weekday by weekday, empty where no row exists |
| `OpportunityHeatmap.KeysAreSlots` | src/analytics/analytics.service.ts:912-915 | renumbering the weekdays makes Monday 0 and Sunday 6 and merges no two slots |
| `OpportunityHeatmap.GetOpportunityHeatmap` | src/analytics/analytics.service.ts:351-455 | every cell shows total, qualified, hot and countries of the wanted posts of its slot |
| `OpportunityHeatmap.CellsPartitionThePosts` | src/analytics/analytics.service.ts:437-453 | every post falls into exactly one of the 168 cells |
| `OpportunityHeatmap.HeatmapSumsToOverview` | src/analytics/analytics.service.ts:277-304 | the cells sum to the overview's received, qualified and hot; each cell's countries sum to its total |
| `OpportunityHeatmap.Dashboard` | src/analytics/analytics.service.ts:250-455 | for one filter set and window the overview over the Prisma path and the heatmap over the SQL path give the same three totals |
| `EncryptionPool.EncryptionService.EnsureInitialized` | src/credentials-vault/encryption.service.ts:59-84 | the loop loads one key per version from the environment, refusing malformed keys and an empty pool |
| `EncryptionPool.LoadsExactlyWhen` | src/credentials-vault/encryption.service.ts:59-84 | a malformed key refuses the pool, then the lack of any key does; otherwise it holds the versions that are set, each with the key it was last set to |
| `EncryptionPool.EncryptionService.EncryptBuffer` | src/credentials-vault/encryption.service.ts:111-130 | sealing uses the newest version of the pool and records it |
| `EncryptionPool.EncryptionService.DecryptBuffer` | src/credentials-vault/encryption.service.ts:147-169 | opening checks the algorithm, the recorded version's key and the authentication, in this order |
| `EncryptionPool.OpensExactlyWhen` | src/credentials-vault/encryption.service.ts:147-169 | a record opens exactly under its algorithm, a loaded key of its version and authentic data; each refusal names the first of the three that fails |
| `EncryptionPool.MoreVariablesGrowThePool` | src/credentials-vault/encryption.service.ts:59-84 | adding variables of new versions grows the loaded pool |
| `CustomFieldBags.TrimsAgreeExactlyWhen` | src/credentials/credentials-account.service.ts:791-802 | two texts trim alike exactly when both are one text with white space around it |
| `CustomFieldBags.BagIgnoresOrder` | src/credentials/credentials-account.service.ts:799-807 | reordering custom fields is never a change |
| `CustomFieldBags.BagsAgreeExactlyWhen` | src/credentials/credentials-account.service.ts:799-807 | any two lists of fields compare as equal exactly when their sorted lines, each cut again at its line breaks, are the same |
| `Splitting.JoinsAgreeExactlyWhen` | src/credentials/credentials-account.service.ts:796-804 | two joined strings agree exactly when their parts agree once each is split again at the separator |
| `CustomFieldBags.BagsCompareFields` | src/credentials/credentials-account.service.ts:799-807 | for fields without equals sign in the label and line breaks, the comparison is equality of the trimmed fields as multisets |
| `CustomFieldBags.BagsCompareLines` | src/credentials/credentials-account.service.ts:799-807 | for fields without line breaks the comparison is equality of the printed lines as multisets |
| `CustomFieldBags.RenamedFieldCanBeMissed` | src/credentials/credentials-account.service.ts:769-776 | two different trimmed fields print alike, against the comment |
| `CustomFieldBags.BrokenFieldCanBeMissed` | src/credentials/credentials-account.service.ts:769-776 | one trimmed field with a line break in its value and two readable fields compare as equal, against the comment |
| `CustomFieldBags.LinesAgreeExactlyWhen` | src/credentials/credentials-account.service.ts:801-803 | two fields print alike exactly when they are equal or the label of one continues the other across an equals sign |
| `SecretPayloads.CleaningStoresWhatIsGiven` | src/credentials/credentials-account.service.ts:508-525 | every text and list that is not empty is stored unchanged; a seed in upper case without its white space; of custom fields the first 32 with a label that is not blank |
| `SecretPayloads.PartialUpdateKeepsAbsentKeys` | src/credentials/credentials-account.service.ts:181-183 | key by key, over a settled payload: absent keeps the stored value, undefined or empty drops it, anything else is stored as the row above says |
| `SecretPayloads.EditKeepsAbsentKeys` | src/credentials/credentials-account.service.ts:181-183 | the same over every payload the service ever stores, except that a seed or list of fields stored empty is dropped by the next edit |
| `SecretPayloads.StoredIsSettledExactlyWhen` | src/credentials/credentials-account.service.ts:508-525 | cleaning a stored payload again changes nothing, except exactly when the seed was spaces only or no custom field had a label |
| `SecretPayloads.FullObjectReplacesThePayload` | src/credentials/credentials-account.service.ts:181-183 | an update that carries every key depends on nothing stored before |
| `SecretPayloads.DiffSecretKeys` | src/credentials/credentials-account.service.ts:777-809 | the loop and the two list comparisons name the differing keys, in order |
| `SecretPayloads.DiffNamesTheChanges` | src/credentials/credentials-account.service.ts:777-809 | the diff holds exactly the keys that differ, and is empty exactly when none does |
| `SecretPayloads.AnswersAreNotCompared` | src/credentials/credentials-account.service.ts:777-809 | a change of only the security answers gives an empty diff |
| `SecretPayloads.PaddingIsNoChange` | src/credentials/credentials-account.service.ts:777-809 | white space around texts, codes, labels and values never makes a change |
| `SecretPayloads.SplitCodeCanBeMissed` | src/credentials/credentials-account.service.ts:795-798 | one recovery code with a bar and two codes around it compare as equal |
| `SecretPayloads.CodesCompareExactlyWhen` | src/credentials/credentials-account.service.ts:795-798 | any two code lists compare as equal exactly when their trimmed codes, each split again at the bar, are the same |
| `SecretPayloads.CodesCompareLists` | src/credentials/credentials-account.service.ts:795-798 | codes that are not blank and hold no bar are told apart position by position |
| `SecretPayloads.DiffIsEmptyExactlyWhen` | src/credentials/credentials-account.service.ts:777-809 | for any two payloads the diff is empty exactly when trimmed texts agree, trimmed codes agree once cut at their bars, and sorted field lines agree once cut at their line breaks |
| `SecretPayloads.PlainDiffIsEmptyExactlyWhen` | src/credentials/credentials-account.service.ts:777-809 | for codes without bars and blanks and readable fields the diff is empty exactly when trimmed texts, trimmed code lists and field multisets agree |
| `CredentialHistory.CredentialsAccountService.Create` | src/credentials/credentials-account.service.ts:100-129 | the sealed, cleaned payload becomes the live record, or nothing changes |
| `CredentialHistory.CredentialsAccountService.Update` | src/credentials/credentials-account.service.ts:144-253 | nothing unless the diff names a key; then a snapshot of the old record, and the merged payload unless the request crashes between |
| `CredentialHistory.CredentialsAccountService.RestoreVersion` | src/credentials/credentials-account.service.ts:680-744 | the current record is snapshotted and the version's record becomes live, for versions of this account only |
| `CredentialHistory.CrashOnlyRepeats` | src/credentials/credentials-account.service.ts:197-215 | a crash between snapshot and write adds the live payload once more to the history, and nothing else |
| `CredentialHistory.CreateStoresWhatIsGiven` | src/credentials/credentials-account.service.ts:100-129 | a created account opens to what it was given, key by key, and nothing else changes |
| `CredentialHistory.EditStoresWhatIsGiven` | src/credentials/credentials-account.service.ts:177-215 | after every run, an edit that changes anything leaves the account opening to what it was given over what it opened to before, key by key; no other account changes |
| `CredentialHistory.OldRecordIsKeptFirst` | src/credentials/credentials-account.service.ts:194-215 | an edit or a restore first keeps the old record as a version with its reason; a crash after that changes nothing else, and a version of another account is not restored |
| `CredentialHistory.StepTells` | src/credentials/credentials-account.service.ts:177-215 | every create, edit, restore, crash and rotation keeps the history telling |
| `CredentialHistory.HistoryTellsEveryRun` | src/credentials/credentials-account.service.ts:672-744 | after every run each account's history and live record open to exactly the payloads it ever had, each repeated once per crash |
| `CredentialHistory.VersionOpens` | src/credentials-vault/encryption.service.ts:147-169 | every version row still opens, to a payload its account once had |
| `CredentialHistory.GrownPoolTells` | src/credentials-vault/encryption.service.ts:59-84 | growing the key pool keeps every record readable |
| `CredentialHistory.ReadableExactlyWhile` | src/credentials-vault/encryption.service.ts:147-193 | however the pool changes, all histories stay readable exactly while every version some record was sealed with keeps its key |
| `CredentialHistory.RestoreIsReversible` | src/credentials/credentials-account.service.ts:672-744 | restoring a version, then the snapshot that made, brings the live record back, and both rows are in the history |
| `CredentialHistory.HistoryOnlyGrows` | src/credentials/credentials-account.service.ts:194-215 | creating, editing, restoring and rotating drop or edit no version row and add at most one; hard delete is not modelled |
| `CredentialHistory.AnswersAloneAreNotStored` | src/credentials/credentials-account.service.ts:177-215 | after every run an edit of only the security answers leaves both tables as they were, whatever was stored |
| `CredentialHistory.EditIsDroppedExactlyWhen` | src/credentials/credentials-account.service.ts:177-215 | whatever is stored and given, an edit leaves both tables alone exactly when what it would store and what is stored agree in that sense |
| `CredentialHistory.PlainEditIsDroppedExactlyWhen` | src/credentials/credentials-account.service.ts:177-215 | when codes hold no bar and are not blank and fields are readable, an edit leaves both tables alone exactly when it changes no secret but the answers |
| `CredentialHistory.LostKeyReplacesThePayload` | src/credentials/credentials-account.service.ts:161-183 | when the stored record no longer opens, an edit stores only what it was given; the old record stays in the history |
| `RateLimiter.VaultRateLimiter.Consume` | src/credentials-vault/rate-limiter.service.ts:23-54 | prune, refuse at the limit, otherwise record, then sweep when the map has grown past its bound |
| `RateLimiter.VaultRateLimiter.Sweep` | src/credentials-vault/rate-limiter.service.ts:47-53 | the sweep drops exactly the keys whose hits are all stale |
| `RateLimiter.SameAnswersAsTheFullLog` | src/credentials-vault/rate-limiter.service.ts:23-54 | with one common window and a forward clock every answer equals that of the log that keeps everything |
| `RateLimiter.AcceptedIsLogged` | src/credentials-vault/rate-limiter.service.ts:23-54 | the calls the limiter lets through are, in order, those the full log holds |
| `RateLimiter.NoWindowOverLimit` | src/credentials-vault/rate-limiter.service.ts:23-54 | no half-open interval of one window length holds more calls of a key that the limiter let through than its limit |
| `RateLimiter.GoesThroughExactlyWhen` | src/credentials-vault/rate-limiter.service.ts:23-45 | with one common window and a forward clock a call goes through exactly when fewer calls of its key than its limit were let through later than one window length before it |
| `LimiterMemory.OwnHitsArePruned` | src/credentials-vault/rate-limiter.service.ts:23-45 | for a positive window, an accepted call keeps of its own key exactly the hits inside the window and adds itself |
| `LimiterMemory.KeysForgotten` | src/credentials-vault/rate-limiter.service.ts:47-53 | other keys are forgotten exactly when the map has grown over 5000 keys and they have no hit inside the window |
| `RateLimiter.TwoWindowsBreakTheLimit` | src/credentials-vault/rate-limiter.service.ts:47-53 | with two windows a sweep can let a call through that the full log refuses |
| `RateLimiter.FaithfulIffOneWindow` | src/credentials/credentials-account.service.ts:48-49 | for two window lengths in use, all runs agree with the full log exactly when the lengths are equal |
| `LateReports.LateReportService.Enqueue` | src/discord-integration/discord-late-report.service.ts:40-77 | with an active profile there is one pending row per report, however often it is enqueued; without one nothing happens |
| `LateReports.ReportsStayDistinct` | src/discord-integration/discord-late-report.service.ts:40-77 | over every run from the empty queue no two rows are for the same report |
| `LateReports.EnqueuedExactly` | src/discord-integration/discord-late-report.service.ts:40-77 | over every run from the empty queue a report has a row exactly when it was enqueued |
| `LateReports.LateReportService.Tick` | src/discord-integration/discord-late-report.service.ts:79-152 | the loop over the 20-row page leaves the rows that `Ticked` describes, stopping at a rate limit and aborting at a date that cannot be printed |
| `LateReports.TickHandlesExactly` | src/discord-integration/discord-late-report.service.ts:79-152 | a tick writes exactly the twenty oldest waiting rows up to the first whose date cannot be printed or whose post is rate limited; each becomes SENT, one attempt further, FAILED at the tenth, or FAILED when unreadable |
| `LateReports.PageFacts` | src/discord-integration/discord-late-report.service.ts:79-100 | the page holds eligible rows only, in ascending order, at most twenty, and starts with the first eligible row |
| `LateReports.TickKeeps` | src/discord-integration/discord-late-report.service.ts:79-152 | a tick strands no row, keeps SENT and FAILED, and strictly drops the remaining attempts when there is work that no bad date blocks |
| `LateReports.ReportsSettle` | src/discord-integration/discord-late-report.service.ts:79-179 | after ten ticks for itself and each row before it a report is settled exactly when it was or no pending row up to it has a date that cannot be printed; a settled row never changes |
| `LateReports.QueueDrains` | src/discord-integration/discord-late-report.service.ts:79-152 | 10 n ticks settle all n rows, whatever the answers, exactly when none of them has such a date |
| `LateReports.BlockedStays` | src/discord-integration/discord-late-report.service.ts:95-117 | a pending row with such a date and every row after it are never written again |
| `LateReports.EnqueuedNeverBlocks` | src/discord-integration/discord-late-report.service.ts:40-77 | a queue that only enqueueing filled holds no such row |
| `Avatars.AvatarService.UploadAvatar` | src/auth/auth.controller.ts:133-175 | key and objects in closed form for every outcome of the steps; the key then dangles exactly when the write landed, setAvatar threw and the compensating delete went through |
| `Avatars.AvatarService.SetAvatarPreset` | src/auth/auth.controller.ts:208-227 | the key becomes the preset when the write landed; the old object goes only after a write that did not throw; the key never dangles |
| `Avatars.AvatarService.DeleteAvatar` | src/auth/auth.controller.ts:236-251 | the key is cleared when the write landed; the old object goes only after a write that did not throw; the key never dangles |
| `Avatars.UploadIsARun` | src/auth/auth.controller.ts:133-175 | an upload nobody interrupts is a run of the interleaved steps, with the handler's outcome |
| `Avatars.ChangeIsARun` | src/auth/auth.controller.ts:208-251 | so is a preset switch and a removal |
| `Avatars.StepKeepsInv` | src/auth/auth.controller.ts:133-251 | every step of the interleaved handlers keeps: an upload under way is unpublished and owned by one handler, retired objects were published before |
| `Avatars.DanglesExactlyWhen` | src/auth/auth.controller.ts:133-251 | in every run `avatarKey` starts to dangle exactly at a compensating delete of the object it names |
| `Avatars.PointerNeverDangles` | src/auth/auth.controller.ts:133-251 | in every interleaved, crashing run where a throw means nothing was written, `avatarKey` is null, a preset or names an existing object |
| `Avatars.LostWriteDangles` | src/auth/auth.service.ts:295-321 | a run in which setAvatar throws after writing leaves `avatarKey` naming a deleted object |
| `UrlCodec.Utf8RoundTrip` | src/backups/backup-download.service.ts:43-44 | decoding the UTF-8 bytes of a code point gives it back, for all code points |
| `UrlCodec.Utf8Bits` | src/backups/backup-download.service.ts:43-44 | the bytes of a code point are those of the table in section 3 of RFC 3629 |
| `UrlCodec.Decode8ExactlyWhen` | scripts/normalize-file-urls.ts:35-39 | bytes are read as a code point exactly when they are its UTF-8 form; overlong forms and surrogates are refused |
| `UrlCodec.EitherCaseIsRead` | scripts/normalize-file-urls.ts:35-39 | hexadecimal digits are written in upper case and read in either |
| `UrlCodec.DecodeEncode` | src/backups/backup-download.service.ts:43-44 | percent-decoding undoes percent-encoding for every well-formed string |
| `UrlCodec.EncodeIsPlain` | src/backups/backup-download.service.ts:43-44 | an encoded string holds no slash and no question mark |
| `UrlCodec.EncodedAsItself` | src/backups/backup-download.service.ts:43-44 | exactly letters, digits and the nine marks of encodeURIComponent stand for themselves |
| `UrlCodec.EncodeIsWellEncoded` | src/backups/backup-download.service.ts:43-44 | an encoded string holds those and upper-case percent triples, nothing else |
| `DownloadUrls.PathRoundTrip` | src/backups/backup-download.service.ts:43-44 | decoding part by part undoes encoding part by part for every well-formed key |
| `DownloadUrls.SignedUrlReads` | src/backups/backup-download.service.ts:43-44 | up to its first question mark the URL is base, /file/, bucket and encoded key; behind it comes Authorization= and the token |
| `DownloadUrls.ExtractsExactlyWhen` | scripts/normalize-file-urls.ts:25-40 | a key is recovered exactly when a bucket, a slash and a path that decodes to it follow the first marker before the query |
| `DownloadUrls.LongerPathLongerKey` | scripts/normalize-file-urls.ts:25-40 | a path with more in front decodes to a different key |
| `DownloadUrls.CleanBaseMeans` | scripts/normalize-file-urls.ts:25-40 | a base is clean exactly when it neither contains the marker nor ends in all of it but the slash |
| `DownloadUrls.ExtractKeyUndoesTheUrl` | scripts/normalize-file-urls.ts:25-40 | parsing the printed URL gives the key back exactly when the base is clean |
| `PayrollBackfill.FeeOnGross` | scripts/backfill-payroll-company-cost.ts:25-41 | the gross-up formula is the one fee that is r of the amount owed plus itself |
| `PayrollBackfill.GrossUpIsRight` | scripts/backfill-payroll-company-cost.ts:25-41 | the recomputed fee is within half a cent of the real one and what remains after it within (1 - r) half cents of the amount owed |
| `PayrollBackfill.CostsFollowTheFee` | scripts/backfill-payroll-company-cost.ts:25-41 | at every rate but 100 % the fee solves the fee equation to the nearest cent, halves away from zero; the remaining payment is what is owed plus the fee, the cost everything accrued plus the fee |
| `PayrollBackfill.CompanyCostCoversTheAdvance` | scripts/backfill-payroll-company-cost.ts:38-40 | company cost less remaining payment is the smaller of advance and accrued total |
| `PayrollBackfill.FeeFallsWithTheAdvance` | scripts/backfill-payroll-company-cost.ts:33-37 | a larger advance never costs a larger fee |
| `PayrollBackfill.PayrollTable.Backfill` | scripts/backfill-payroll-company-cost.ts:62-95 | the pass rewrites exactly the three fields of every row, counts the differing ones and reports per month old cost, rows and delta; a dry run writes nothing; only a 100 % fee on something owed is excluded |
| `PayrollBackfill.SecondPassChangesNothing` | scripts/backfill-payroll-company-cost.ts:62-95 | a pass over a rewritten table finds no difference and rewrites to the same table |
| `FiscalCalendar.Generator.GenerateYear` | scripts/generate-fiscal-calendar.ts:72-123 | the nested loops upsert exactly the 12 months and 52 weeks of the year in the 4-4-5 pattern |
| `FiscalCalendar.Generator.GenerateYears` | scripts/generate-fiscal-calendar.ts:57-123 | any list of years leaves those years written and all others as they were |
| `FiscalCalendar.RegeneratingChangesNothing` | scripts/generate-fiscal-calendar.ts:72-123 | writing again any years already written leaves both tables as they are |
| `FiscalCalendar.DaysRoundTrip` | scripts/generate-fiscal-calendar.ts:57-123 | every day has a position, whose day it is |
| `FiscalCalendar.PositionsRoundTrip` | scripts/generate-fiscal-calendar.ts:57-123 | every year, month, week and weekday is the position of its day |
| `FiscalCalendar.WeeksAreContiguous` | scripts/generate-fiscal-calendar.ts:57-123 | weeks are seven days from a Monday and follow each other without gaps through months and years of 364 days |
| `FiscalCalendar.QuartersAre445` | scripts/generate-fiscal-calendar.ts:65-75 | months have four, four and five weeks in every quarter |
| `FiscalCalendar.SeededYearsStart` | scripts/generate-fiscal-calendar.ts:48-63 | the years 2025 to 2028 start on 13, 12, 11 and 10 January |
| `FiscalCalendar.EveryDayHasOneWeek` | scripts/generate-fiscal-calendar.ts:72-123 | in generated tables a day lies in exactly the week row its position names, and only if its year was generated |
| `BackupRetention.AnchorIsNewest` | src/backups/retention.ts:20-36 | the anchor is a VERIFIED run no other VERIFIED run is newer than, if one exists |
| `BackupRetention.AnchorIsFirst` | src/backups/retention.ts:23-29 | of several newest VERIFIED runs the first is the anchor |
| `BackupRetention.PrunedExactlyWhen` | src/backups/retention.ts:20-36 | a run is picked exactly when it started before the cutoff and is not the anchor |
| `BackupRetention.PrunedAfterRetention` | scripts/prune-backups.ts:44-65 | a run is a candidate exactly when it is older than the retention days and not the anchor |
| `BackupRetention.VerdictNamesTheFirstFailure` | src/backups/migration-gate.ts:35-78 | for every input the migration is allowed exactly when a run is given and all five checks hold; otherwise the first failing one is named |
| `BackupRetention.ProductionGateMeans` | src/backups/migration-gate.ts:59-76 | the production gate can pass exactly when a newest run is accepted and at most 24 hours old, and can refuse exactly when there is none or one that is not |
| `BackupRetention.PruneNeverMovesTheProductionGate` | src/backups/migration-gate.ts:35-77 | from the prune on, the production gate can pass or refuse exactly as it could without it |
| `BackupRetention.PruneClosesOtherGatesExactlyWhen` | scripts/require-fresh-backup.ts:32-44 | elsewhere, in either flow and for any set of deletes, the gate can no longer pass exactly when it could and every run it accepts is deleted |
| `BackupRetention.PruneOpensOtherGatesExactlyWhen` | scripts/require-fresh-backup.ts:32-44 | it can pass where it could not exactly when, before a migration, the current run is left and all newer ones, of which there are some, are deleted |
| `BackupRetention.PruneLetsOtherGatesRefuseExactlyWhen` | scripts/require-fresh-backup.ts:32-44 | it can refuse where it could not exactly when all runs it could find were accepted and every accepted run is deleted |
| `BackupRetention.PruneEndsRefusalExactlyWhen` | scripts/require-fresh-backup.ts:32-44 | it can no longer refuse exactly when, before a migration, the current run is left and all others as new or newer are deleted |
| `BackupRetention.FullPruneClosesOtherGatesExactlyWhen` | scripts/prune-backups.ts:44-65 | a complete prune closes the gate outside the pre-migration flow exactly when all its VERIFIED runs are past the cutoff and none is the anchor |
| `BackupRetention.PartialPruneOpensAGate` | scripts/prune-backups.ts:44-65 | a concrete partial prune after which a refused pre-migration gate passes |
| `BackupRetention.PruneIsIdempotent` | scripts/prune-backups.ts:44-65 | for a fixed cutoff a second prune picks nothing |
| `BackupRetention.AnchorSurvives` | scripts/prune-backups.ts:44-65 | deleting any of the candidates leaves the anchor the anchor |

## Left out

- HTTP, Discord, B2, Prisma and Postgres: oracles or atomic steps; a write in flight at a crash counts as before or after it.
- `runOnce`, the backup advisory lock, ops-channel notices and the profile's success and failure records.
- Collisions of `hash31`, which only add contention; embeds are fixed per job and period.
- Concurrent updates of the same call (a stale read in `update`): one call's handling is atomic; owner checks, notification texts and time zones of reminders are absent.
- Time zones and `resolveWindow`: windows, weekdays and hours of posts are inputs; average score, rates, the daily heatmap, maxima and trend figures are not modelled.
- The string keys of heatmap cells are pairs; `localeCompare` is any function, consistent where order is claimed.
- Serial runs only for credentials; metadata fields, audit, notifications and archive touch no payload, and hard delete, which removes an account with all its version rows (`prisma/schema.prisma:1646`), is not among the operations. JSON and AES-GCM are one round-trip law, so strings with lone surrogates, which UTF-8 replaces, are assumed not to occur; `toUpperCase` is any function, with its usual laws where a statement names them.
- Fiscal labels and month names; Decimal precision (exact rationals; a fee of 100 % on something owed, which divides by zero, is excluded from the pass).
- The main loops of `normalize-file-urls.ts`, the authorization cache of the download service, deletes in object storage by the prune.
- Equal start times of backups: the gate may find any of the newest, and both verdicts are followed.
- Seeders, guards, CRUD controllers, permission lists and wiring: nothing there to prove beyond one body.
