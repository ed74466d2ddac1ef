# A verified model of the communication platform's core

This project models, in Dafny, the parts of the platform whose correctness depends on state, order and
arithmetic, and proves what they guarantee over every input, every run and every interleaving:

* the SMTP client's reply parser and waiter queue, and the message printer with its dot-stuffing
  (`SmtpReplies`, `SmtpDelivery`, `SmtpSessions`, `SmtpTexts`, `SmtpServer`, `SmtpRepair`, `SmtpMessage`,
  `SmtpRoundTrip`);
* the answer engine (policy preflight, hybrid retrieval, threshold, generation, refusal) and the OneBrain
  router around it (`Ranking`, `Engine`, `Grounding`, `Answering`, `Routing`, `RoutingOutcomes`);
* the metrics registry's label printing, counters and histograms (`Labels`, `Metrics`);
* the worker protocols: tombstone consumption with a durable cursor and crashes, account resolution, the
  delete outbox, delivery retry, knowledge sync and the embedding backfill (`Tombstones`, `TombstoneSafety`,
  `Accounts`, `DeleteOutbox`, `Deliveries`, `Intakes`, `Sync`, `SyncSafety`, `Embeddings`, `Backfill`);
* cosine similarity (`Cosine`), and the chat widget's send limit and operator polling (`RateLimit`,
  `OperatorPolls`).

`Sorting`, `Strings` and `JsMap` hold the JavaScript operations the rest leans on: a stable sort, trimming and
an insertion-ordered map.

Code that updates state in place is a class whose methods are proved against a specification function
(`Run`, `Step`, `RunSpec`, `History` ...); the theorems are about those functions, so they hold of any sequence of
calls. What the outside does (stores, providers, clocks, crashes, exceptions) is a parameter, so a theorem
quantifies over all of it.

## Where the code does less than it intends

Each of these is kept as the code has it, with the exact condition under which the intended property holds:

* `flushWaiters` takes a reply before it looks for a waiter, so a reply that completes while nobody waits is lost:
  `LosslessIff`, `EarlyGreetingLost`. In terms a client can check, the condition is that its reads lead the replies:
  `LosslessIffReadsLead`; a session in lock step meets it: `LockStepLossless`. Looking for the waiter first is enough for
  the reply codes in every interleaving: `RepairedIsLossless`.
* The reply parser accepts an unterminated last line, so a line whose tail reads like a reply can be split into
  two replies: `ChunkingInvariance`, `UnsafeTailSplits`. A data event that ends past the code of a reply's last line
  cuts its text short: `TextsIff` and `TextsLossless` say when no text is. With a parser that also waits for the end of
  the line, every read gets the right code and text for every stream, chunking and interleaving: `WholeLossless`.
* `^` under `/m` also matches after a bare CR, U+2028 and U+2029, so a dot there is doubled and not undone:
  `DotStuffingRoundTrip`.
* Stored histogram buckets are already cumulative and `render` accumulates them again: `PrintedBucketIff`,
  `PrintedBucketExceedsCount`.
* The rejected-answer promise is returned without `await`, which is what keeps the local answer from running
  twice: `CallsAtMostOnce`, `AwaitingRunsTwice`.
* A tombstone deferred while erasing is off is never looked at again: `DeferredIsFinal`. An erasure is carried out
  exactly when the run that moves the cursor past its tombstone may erase and finds the tenant: `ErasureCarriedOutIff`.
  An erasure that keeps failing, as under a legal hold, stops the feed at its tombstone: `NothingAfterFailedErasure`,
  `FailedErasureBlocksCursor`.
* A tenant's account leads back to it exactly when its slug is stored trimmed and is not blank: `ResolutionInverse`. A
  tenant without a slug is acked unerased, unless its account is some other tenant's slug: `FallbackAckedUnerased`; then
  the other tenant is the one found and, with erasing enabled, erased: `MisdirectedIff`, `OwnerErasedIff`. Over any
  history a tenant is erased only for a tombstone that names its own slug: `ErasedOwnsAccount`.
* A send whose adapter throws is not counted as an attempt: `SendsAccounted` is the exact account, and the retry budget
  holds for a class of adapters exactly when none throws at the row: `WithinBudgetIff`.
* An item whose content exceeds 20000 characters is sent cut short, and a change behind the cut is not seen as one:
  `LongChangeUnseenIff`.
* A run stops at the first item that fails, so an item is reached exactly when every item before it lets the run go on:
  `ReturnsIff`, `ReachesIff`, `CalledIff`, `BecomesCurrentIff`; an item that stays stale starves those after it:
  `FailingItemStarvesTheRest`. An intake that the provider took, but whose success and failure both went unrecorded,
  leaves a stale record: `MirrorIff`.
* Vectors go to the wrong chunks unless the response's indices are dense: `AlignedIff`, `GapShifts`.
* A widget reset forgets the send stamps: `AtMostTenAMinute` counts the resets inside a minute, and
  `ResetsDefeatTheLimit` reaches that bound.
* The database stamps replies in microseconds and the widget's cursor keeps milliseconds, so a reply with a
  fractional time is listed again by every idle poll: `IdlePollIff`, `RepeatsWithoutEnd`, `FaithfulIff`.
* Overlapping polls can repeat replies whatever the times: `OverlapDuplicates`, `OverlapMovesCursorBack`. With
  whole-millisecond times a run stays in order exactly when every answer that brings replies comes back to the cursor it
  was asked with: `OverlapIff`; `LateAnswerIff` says what any other answer does to the cursor.

## Model

| member | source | states |
|---|---|---|
| SmtpReplies.ReplyReader.TakeResponse | apps/api/src/notifications.ts:310-324 | Returns the first complete reply and leaves the rest of the buffer, or leaves everything as it is when no line ends a reply |
| SmtpReplies.ReplyReader.FlushWaiters | apps/api/src/notifications.ts:326-333 | The loop serves the oldest waiters and drops the reply taken after the last of them, as the flush specification says |
| SmtpReplies.ReplyReader.OnData | apps/api/src/notifications.ts:335-338 | One data event is one step of the session specification |
| SmtpReplies.ReplyReader.ReadResponse | apps/api/src/notifications.ts:348-356 | One read takes a buffered reply at once or queues a waiter |
| SmtpReplies.SplitAfterJoin | apps/api/src/notifications.ts:311-316 | Joining lines with CRLF and splitting them again gives the same lines, so cutting a reply off the buffer loses no line |
| SmtpDelivery.Conservation | apps/api/src/notifications.ts:310-356 | For every interleaving of data and reads, the codes of the taken replies followed by those of the buffered ones are exactly the reply codes of the stream, when no reply line has a tail that reads like a reply |
| SmtpDelivery.FlushOutcome | apps/api/src/notifications.ts:326-333 | Every waiter gets the next reply in order; the first reply beyond the waiters is lost and the later ones stay buffered |
| SmtpDelivery.DropsExactly | apps/api/src/notifications.ts:326-338 | A run loses no reply if and only if at each data event at least as many reads wait as replies are complete |
| SmtpDelivery.FifoAlways | apps/api/src/notifications.ts:326-356 | Delivered replies go to reads in the order the reads were issued, in every interleaving |
| SmtpDelivery.LosslessIff | apps/api/src/notifications.ts:304-356 | The i-th read gets the i-th reply code of the stream and none is missed, if and only if a reader waits for each reply when it completes |
| SmtpDelivery.EarlyGreetingLost | apps/api/src/notifications.ts:326-338 | A greeting that arrives before the first read is dropped, whatever follows |
| SmtpDelivery.UnsafeTailSplits | apps/api/src/notifications.ts:311-322 | For every stream with a reply line whose tail reads like a reply, some chunking yields one reply too many although enough reads wait |
| SmtpDelivery.ChunkingInvariance | apps/api/src/notifications.ts:310-338 | The reply codes read are the same for every chunking of a stream if and only if no reply line of it has such a tail |
| SmtpSessions.LosslessIffReadsLead | apps/api/src/notifications.ts:326-356 | The i-th read gets the i-th reply code if and only if at every data event as many reads have been issued as replies have been received |
| SmtpSessions.LockStepLossless | apps/api/src/notifications.ts:358-387 | A session whose read for the greeting, and then for each command, is issued before what the server sends for it, at most one reply in any chunks, gives every read its reply code |
| SmtpTexts.TextsIff | apps/api/src/notifications.ts:310-338 | With a read waiting for each reply, after every event the taken replies are the stream's first, code and whole text, and the buffer holds the rest, if and only if no data event ends inside the last line of a reply, past its code; for every stream |
| SmtpTexts.TextsLossless | apps/api/src/notifications.ts:310-356 | When a read waits for each reply and no data event ends inside the last line of a reply, past its code, the i-th read gets the i-th reply of the stream, code and whole text, and none is missed |
| SmtpTexts.WholeLossless | apps/api/src/notifications.ts:310-356 | With the waiter looked for first and a parser that waits for the end of the line, the i-th read gets the i-th reply, code and whole text, for every stream, chunking and interleaving |
| SmtpServer.FinalIff | apps/api/src/notifications.ts:311-320 | A line ends a reply if and only if it is the three decimal digits of some number, a space and any text, and that number is the code |
| SmtpServer.TakePrinted | apps/api/src/notifications.ts:310-324 | From a printed reply of any code below 1000 and any texts without line feeds, whatever follows it, the parser takes that code and the printed lines, and leaves the lines of what follows |
| SmtpServer.WholeRepliesPrinted | apps/api/src/notifications.ts:310-324 | A stream of printed replies holds exactly those replies, in order, with their codes and texts |
| SmtpServer.PrintedRepliesReachReads | apps/api/src/notifications.ts:304-356 | When a read waits for each reply and no data event ends inside a last line past its code, the i-th read gets the i-th reply the server printed |
| SmtpRepair.RepairedIsLossless | apps/api/src/notifications.ts:326-333 | With the waiter looked for before a reply is taken, the i-th read gets the i-th reply code in every interleaving and chunking |
| SmtpMessage.NormalizeIsJoin | apps/api/src/notifications.ts:391-404 | Normalising line breaks is splitting at CRLF or LF and joining with CRLF |
| SmtpRoundTrip.MessageEndsOnce | apps/api/src/notifications.ts:391-404 | CRLF "." CRLF occurs in a formatted message at its end and nowhere else, for every body and subject |
| SmtpRoundTrip.DotStuffingRoundTrip | apps/api/src/notifications.ts:391-408 | The RFC 5321 section 4.5.2 reader consumes exactly the message and gets "From: " and the sender, "To: " and the recipient, the subject line, the two content fields and an empty line; the body behind them is the CRLF-normalised text if and only if no dot directly follows a bare CR, U+2028 or U+2029 |
| SmtpRoundTrip.SubjectPrinted | apps/api/src/notifications.ts:406-408 | A subject of at most 160 characters without line breaks is printed as it is; any other as its words with one space for each run of breaks, as far as 160 characters |
| SmtpRoundTrip.Unweave | apps/api/src/notifications.ts:406-408 | Every subject is words without line breaks woven with runs of breaks |
| Labels.EscapeByChar | apps/api/src/metrics.ts:19-24 | The three sequential replacements escape each character once, as a single pass would |
| Labels.ValueRoundTrip | apps/api/src/metrics.ts:19-24 | Reading an escaped value up to its closing quote gives the value back, for every string |
| Labels.RenderRoundTrip | apps/api/src/metrics.ts:27-37 | Parsing the printed labels gives the label set back, for every map with legal names and every value string |
| Labels.SeriesKeyInjective | apps/api/src/metrics.ts:39-41 | Two label sets have the same series key if and only if they are equal as sets |
| Metrics.Counter.Inc | apps/api/src/metrics.ts:57-65 | The series afterwards is one step of the counter specification |
| Metrics.Counter.Render | apps/api/src/metrics.ts:67-82 | One sample per series, in insertion order, or a single zero when there is none |
| Metrics.CounterTotals | apps/api/src/metrics.ts:44-65 | After any run of increments a label set's series exists if and only if it was incremented, and holds the sum of the amounts passed with an equal label set |
| Metrics.Histogram.Observe | apps/api/src/metrics.ts:101-121 | The series afterwards is one step of the histogram specification |
| Metrics.Histogram.RenderEntry | apps/api/src/metrics.ts:123-149 | Bucket samples carry the accumulated stored counts, then +Inf, sum and count |
| Metrics.HistogramRefines | apps/api/src/metrics.ts:101-121 | After any run of observations, stored bucket i is the number of observations with this label set at most bound i, and count and sum are theirs |
| Metrics.StoredBucketsCumulative | apps/api/src/metrics.ts:101-121 | Stored buckets are nondecreasing and never above the count |
| Metrics.PrintedBucketIff | apps/api/src/metrics.ts:123-149 | Printed bucket i is the number of observations at most bound i if and only if i is 0 or none is at most bound i-1; the stored count is that number always |
| Metrics.PrintedBucketExceedsCount | apps/api/src/metrics.ts:123-149 | Two observations can print a bucket of four, above the +Inf bucket |
| Metrics.PrintedBucketIs | apps/api/src/metrics.ts:123-149 | Printed bucket i counts every observation of the label set once for each bound up to i that is at or above it |
| Ranking.RankedChunks | packages/core/src/engine.ts:553-575 | Keyword ranking keeps exactly the chunks with a positive score, each as often as the store lists it, with that score, highest first |
| Ranking.MergeRankedChunks | packages/core/src/engine.ts:582-596 | The map-building loop and the sort compute the merge specification |
| Ranking.MergeHolds | packages/core/src/engine.ts:582-596 | The merge has exactly the candidates' ids, each with the first occurrence's fields and the maximum score of all occurrences |
| Ranking.MergeOrder | packages/core/src/engine.ts:582-596 | No id twice; descending scores; ties in order of first appearance |
| Ranking.SupportingIsPrefix | packages/core/src/engine.ts:231-241 | When the best chunk meets the threshold the supporting chunks are the ones at or above it, at most the best three, headed by it; so the fallback to the best chunk alone is never needed |
| Ranking.ClassifyIntent | packages/core/src/engine.ts:529-551 | The loop finds the first enabled intent with the largest positive score, or reports none |
| Engine.AnswerEngine.Refuse | packages/core/src/engine.ts:456-499 | Outcome, trace and handoff call of a refusal, with or without a handoff store and when it throws |
| Engine.AnswerEngine.RunPolicyPreflight | packages/core/src/engine.ts:283-337 | Outcome, trace and calls of the preflight for every policy and store failure |
| Engine.AnswerEngine.SemanticSearch | packages/core/src/engine.ts:404-442 | Semantic candidates above the similarity floor, none when the embedder or the search fails, and a throw only from the error hook |
| Engine.AnswerEngine.GenerateGroundedAnswer | packages/core/src/engine.ts:339-402 | The sanitised generation or the approved fallback, with the trace step that says which |
| Engine.AnswerEngine.Answer | packages/core/src/engine.ts:118-267 | Outcome, trace and effects of a whole answer are those of the pipeline specification |
| Engine.AnswerEngine.PolicyPreflight | packages/core/src/engine.ts:278-281 | The refusal of the preflight, or none when the message may proceed |
| Grounding.PreflightIff | packages/core/src/engine.ts:283-337 | The preflight lets a message through if and only if the policy loads and the message is neither over-long nor on a blocked topic; otherwise nothing is answered |
| Grounding.AnswerCalls | packages/core/src/engine.ts:118-267 | An answer makes no provider call, at most one handoff and one generation, and for a disallowed message no generation and no answer |
| Grounding.GroundingSound | packages/core/src/engine.ts:118-267 | "answered" implies a retrieved chunk whose keyword score, or semantic score above the floor, meets the tenant threshold, which is the single citation; every chunk given to the generator meets it; and the text is the approved answer or a sentinel-free generation of 1 to 900 characters, plus at most one full stop |
| Answering.AnsweredIff | packages/core/src/engine.ts:118-267 | A message is answered if and only if the policy is read and allows it, both searches come back, some hit with evidence reaches the threshold, the best hit's chunk has an approved answer or a content, and the generator, where it is called, does not throw past its hook; every field, the trace and the calls of the answer are the best hit's |
| Answering.RefusedMeaning | packages/core/src/engine.ts:118-337 | A message that is too long, on a blocked topic, without a hit at the threshold or without a text is refused for that reason, with that text and trace: "handoff" if escalation is enabled, "refused" otherwise, one handoff exactly when it and requests are enabled and there is a store; only creating the handoff throws |
| Answering.RefusedOtherwise | packages/core/src/engine.ts:118-337 | Every message that is neither answered nor ends in an exception meets the conditions of one of these refusals |
| Answering.BackedIff | packages/core/src/engine.ts:144-163 | Some hit with evidence reaches the threshold if and only if the best merged hit does |
| Answering.ExtractMeaning | packages/core/src/engine.ts:598-612 | A chunk's text is its approved answer, or what follows the first "Answer:" that starts a line, or its content: the first of them that is not blank, trimmed |
| Answering.SanitizeMeaning | packages/core/src/engine.ts:614-627 | A generation is used without the white space and quotation marks around it, if and only if it then has at most 900 characters and no sentinel |
| Routing.AnswerWithOneBrainFallback | packages/core/src/onebrain-runtime.ts:56-164 | Outcome and effects of a routed message are those of the routing specification, for every setting and every exception |
| Routing.CallsAtMostOnce | packages/core/src/onebrain-runtime.ts:56-164 | Per message the provider, the local answer and the handoff are each called at most once, whatever returns or throws |
| Routing.PolicyNotRoutedAround | packages/core/src/onebrain-runtime.ts:56-164 | With the preflight wired in, a message that the policy read for it disallows (the preflight's in front of a provider, the local answer's otherwise) is never answered and never reaches the provider or the generator; in front of a provider no local answer is tried either |
| Routing.LocalPolicyHolds | packages/core/src/onebrain-runtime.ts:60-164 | A message that the local policy disallows is never answered locally: only a usable answer of the provider can answer it |
| Routing.UnwiredIsAsked | packages/core/src/onebrain-runtime.ts:88-121 | Without the preflight an enabled provider is asked whatever the policy says |
| Routing.FailsClosedAlways | packages/core/src/onebrain-runtime.ts:56-191 | When OneBrain is required or the fallback is off, no local answer runs and only a usable remote answer is "answered" |
| RoutingOutcomes.LocalAnswerIff | packages/core/src/onebrain-runtime.ts:56-164 | One local answer is made if and only if there are no settings, or nothing fails closed and the provider is disabled, missing, throws past a quiet hook or returns nothing usable; the result is the engine's, with the obstacle at the head of its trace |
| RoutingOutcomes.RemoteIff | packages/core/src/onebrain-runtime.ts:108-152 | The provider's trimmed text is the answer if and only if it was asked and returned a chunk of evidence and 1 to 900 characters |
| RoutingOutcomes.UnavailableIff | packages/core/src/onebrain-runtime.ts:56-164 | The message fails closed if and only if the fallback is needed and not allowed; then no call is made but the question that was asked |
| RoutingOutcomes.FailsClosedIff | packages/core/src/onebrain-runtime.ts:230-250 | The fallback is not allowed if and only if the settings require OneBrain or switch the fallback off, in one of the four words for it, whatever their case and surrounding white space |
| Routing.AwaitingRunsTwice | packages/core/src/onebrain-runtime.ts:106-163 | Had the rejected-answer promises been awaited inside the try, a fallback that throws would run the local pipeline a second time |
| Tombstones.Consumer.HandleTombstone | apps/workers/src/onebrain-tombstone-consume.ts:75-112 | One tombstone's effects and counters after its look-up, up to the call in which the process may die |
| Tombstones.Consumer.ConsumeTombstoneFeed | apps/workers/src/onebrain-tombstone-consume.ts:61-129 | A run's durable effects, its cursor and its result, for every crash point and for look-ups whose answers change during the run |
| TombstoneSafety.Conservation | apps/workers/src/onebrain-tombstone-consume.ts:70-129 | The counters report the calls made; fetched = acked + skipped + deferred and erased is at most acked |
| TombstoneSafety.ReportIsExact | apps/workers/src/onebrain-tombstone-consume.ts:61-129 | A run that returns reports the tombstones it fetched, the calls it made by kind, and the cursor it left |
| TombstoneSafety.AddedJustified | apps/workers/src/onebrain-tombstone-consume.ts:75-112 | Every effect is one that its own tombstone's look-up calls for, and the ack of a tombstone that matched comes directly after its erasure |
| TombstoneSafety.CursorStep | apps/workers/src/onebrain-tombstone-consume.ts:114-119 | The cursor moves only forward, and only after every tombstone of the page was handled |
| TombstoneSafety.CursorNeverDecreases | apps/workers/src/onebrain-tombstone-consume.ts:114-119 | Over any history with crashes the stored cursor never decreases and no effect is undone |
| TombstoneSafety.ErasuresJustified | apps/workers/src/onebrain-tombstone-consume.ts:78-99 | In any history a tenant is erased only by a run that enables it, for an account-level tombstone that matched it |
| TombstoneSafety.NothingPassedOver | apps/workers/src/onebrain-tombstone-consume.ts:61-129 | Every published tombstone at or below the stored cursor was acked or reported, crash or not |
| TombstoneSafety.NeverRevisited | apps/workers/src/onebrain-tombstone-consume.ts:61-73 | No later run touches a tombstone at or below the cursor |
| TombstoneSafety.DeferredIsFinal | apps/workers/src/onebrain-tombstone-consume.ts:86-93 | A tombstone deferred while erasing is off is reported once and never handled again, whatever is enabled later |
| TombstoneSafety.ErasureCarriedOutIff | apps/workers/src/onebrain-tombstone-consume.ts:61-129 | Whatever runs follow, a tenant is erased for a published tombstone, not erased for before, if and only if the run that moved the cursor past it may erase, the tombstone is account-level and a look-up that run made for it found that tenant |
| TombstoneSafety.CrashRepresents | apps/workers/src/onebrain-tombstone-consume.ts:67-119 | A crash before the cursor is stored leaves it in place, and the next page lists the same tombstones |
| TombstoneSafety.NothingAfterFailedErasure | packages/db/src/repository.ts:6361-6378 | A run whose erasure of a tombstone fails handles only what its page lists before it, throws, and leaves the cursor |
| TombstoneSafety.FailedErasureBlocksCursor | apps/workers/src/onebrain-tombstone-consume.ts:94-119 | While an erasure keeps failing, no history moves the cursor to its tombstone |
| Accounts.ResolutionInverse | apps/workers/src/index.ts:194-204 | Without an override, resolving a tenant's derived account returns that tenant if and only if its slug is stored trimmed and is not blank |
| Accounts.AccountsDistinct | apps/workers/src/onebrain-sync.ts:210-219 | Distinct tenants with well-formed slugs have distinct accounts |
| Accounts.FallbackAckedUnerased | apps/workers/src/onebrain-tombstone-consume.ts:75-103 | A tombstone for the account of a tenant without a slug is acked with nothing erased if and only if that account equals no stored slug |
| Accounts.OwnerErasedIff | apps/workers/src/onebrain-tombstone-consume.ts:75-103 | A tombstone has a tenant erased and is then acked if and only if erasing is enabled, it is account-level and its account is that tenant's slug |
| Accounts.MisdirectedIff | apps/workers/src/index.ts:194-204 | A tenant's derived account resolves to another tenant if and only if it is the other's slug, and only when the tenant's own slug is missing, blank or not stored trimmed |
| Accounts.ErasedOwnsAccount | apps/workers/src/index.ts:194-204 | Over any history with live look-ups, whatever the override, each erased tenant's own slug is the account of the tombstone it is erased for |
| Accounts.OverrideErasesNothing | apps/workers/src/index.ts:194-204 | Under a deployment-wide account override no history erases or acks anything |
| Accounts.ErasedThenAcked | apps/workers/src/index.ts:500-506 | An erasure deletes the tenant's row, so a further tombstone of its account, on the same page or presented again, resolves to no local tenant and is acked |
| Accounts.NeverErasedTwice | packages/db/src/repository.ts:6361-6378 | Over any history, with duplicate tombstones on a page and crashes between, no tenant is erased twice |
| Accounts.LiveExists | apps/workers/src/index.ts:194-204 | For every tenants table, page and switch there is a run whose look-ups answer from the table as its own erasures leave it |
| DeleteOutbox.Outbox.DrainOne | apps/workers/src/onebrain-delete-drain.ts:56-70 | What the try and the catch leave of one row, and how it is counted |
| DeleteOutbox.Outbox.ProcessOneBrainDeleteOutbox | apps/workers/src/onebrain-delete-drain.ts:38-72 | A run attempts the first page of pending rows in order and leaves the others; its counters are those of the page |
| DeleteOutbox.RunLowersBudget | apps/workers/src/onebrain-delete-drain.ts:38-72 | Each run lowers the summed remaining budget by at least the rows it records, for every failure pattern |
| DeleteOutbox.QueueEmpties | apps/workers/src/onebrain-delete-drain.ts:38-72 | After total budget / page size plus the largest budget many runs nothing is pending |
| DeleteOutbox.ProgressBound | apps/workers/src/onebrain-delete-drain.ts:38-72 | From n pending rows with no inserts, nothing is pending after floor(n * maxAttempts / the page size) + maxAttempts runs |
| DeleteOutbox.SettledHonestly | apps/workers/src/onebrain-delete-drain.ts:56-70 | A pending row becomes done if and only if some run has it in its page and its delete is confirmed there; it fails only with its attempts used up; a settled row never changes |
| DeleteOutbox.PageMeaning | packages/db/src/repository-onebrain-delete.ts:52-63 | The page is the first pending rows, as many as the limit, a hundred without one, never more than five hundred or less than one |
| DeleteOutbox.CountsAreEffects | apps/workers/src/onebrain-delete-drain.ts:52-72 | A run's failed count is the attempts it records, and everything else it processed became done |
| DeleteOutbox.CountsFirst | apps/workers/src/onebrain-delete-drain.ts:56-70 | Each row adds to the deleted count what its confirmed deletion removed, and otherwise one to the failed count |
| Deliveries.Worker.Redeliver | apps/workers/src/retry-deliveries.ts:83-137 | What one delivery's send leaves in its row, and how the run counts it |
| Deliveries.Worker.RetryFailedDeliveries | apps/workers/src/retry-deliveries.ts:59-146 | A run's rows, sends and result, up to the delivery that throws |
| Deliveries.TallyAdds | apps/workers/src/retry-deliveries.ts:59-146 | A run that finishes has considered = resent + stillFailing + exhausted |
| Deliveries.TallyMeaning | apps/workers/src/retry-deliveries.ts:59-146 | Resent rows are sent, still failing ones are left to be retried and exhausted ones are given up |
| Deliveries.SettledMeaning | packages/db/src/repository.ts:4653-4708 | A listed row becomes sent if and only if its send was sent or queued, and is retried again if and only if it failed retryably below the ceiling; nothing else of it changes |
| Deliveries.SendsAsStored | apps/workers/src/retry-deliveries.ts:148-174 | Every message a run sends carries a stored delivery's own tenant, channel, text and recipient |
| Deliveries.SendsAccounted | apps/workers/src/retry-deliveries.ts:83-137 | Over any history a row's sends plus its starting attempts equal its recorded attempts plus the runs that threw at it after sending |
| Deliveries.AttemptsCapped | packages/db/src/repository.ts:4602-4708 | A row without budget is never sent and never changes; one with budget never gets more attempts than the ceiling |
| Deliveries.SendBound | apps/workers/src/retry-deliveries.ts:59-146 | Over any history a row is sent at most its remaining attempts plus once for each run that threw at it |
| Deliveries.WithinBudgetIff | apps/workers/src/retry-deliveries.ts:59-146 | For any store and any row that is next to be listed, every history with adapters of a class keeps the row within its budget if and only if no adapter of the class throws at it |
| Deliveries.WorkRunsOut | apps/workers/src/retry-deliveries.ts:59-146 | The summed remaining attempts bound the number of runs that have work |
| Deliveries.ThrowingUnbounded | apps/workers/src/retry-deliveries.ts:102-106 | An adapter that throws at a row is sent it again in every run, without end, and records nothing |
| Intakes.ClampMeaning | apps/workers/src/onebrain-sync.ts:232-238 | Clamped text is the trimmed text when that fits, and otherwise the marker behind its first cap - 12 characters without the white space at their end; it is trimmed and within its cap |
| Intakes.ClampStableIff | apps/workers/src/onebrain-sync.ts:232-238 | Clamping stays within the cap and is idempotent for every text if and only if the cap exceeds the 12 characters of the marker |
| Intakes.IntakeMeaning | apps/workers/src/onebrain-sync.ts:169-208 | An item is skipped if and only if its content is white space; otherwise its intake carries the item's own clamped content and title or the default title, its facts, the tenant's scope and account, and its source reference |
| Intakes.SameIntake | apps/workers/src/onebrain-sync.ts:169-208 | Two items of a tenant with the same intake have the same ids, tags and metadata and, when it fits, the same trimmed content |
| Intakes.LongChangeUnseenIff | apps/workers/src/onebrain-sync.ts:232-238 | A change between two contents that do not fit leaves the intake unchanged if and only if their first 19988 characters agree up to the white space at their end |
| Intakes.SourceRefInjective | packages/core/src/onebrain.ts:468-474 | Source references differ between items, and between tenants whose ids have no colon |
| Sync.Exporter.SyncItem | apps/workers/src/onebrain-sync.ts:114-158 | One item's records, calls and counters, for every way the lookup, the intake or the recording can throw |
| Sync.Exporter.SyncApprovedKnowledge | apps/workers/src/onebrain-sync.ts:90-167 | The nested loops work through each tenant's first approved items in order and stop at the first throw |
| SyncSafety.JobsDistinct | apps/workers/src/onebrain-sync.ts:107-127 | Unique ids give every listed item its own record key |
| SyncSafety.ReturnedIsCurrent | apps/workers/src/onebrain-sync.ts:90-167 | After a run that returns, each listed non-blank item has a synced record with its current hash; attempted = synced and attempted + skipped = all items |
| SyncSafety.IdleIff | apps/workers/src/onebrain-sync.ts:114-133 | A run whose lookups work makes no intake call if and only if every item is current; then it returns and changes no record |
| SyncSafety.NeverResent | apps/workers/src/onebrain-sync.ts:125-157 | On unchanged data no later run sends an item whose success is recorded, whether runs return or throw |
| SyncSafety.ResumesAtThrow | apps/workers/src/onebrain-sync.ts:108-157 | A run that throws leaves every item before the throw current |
| SyncSafety.CallBudget | apps/workers/src/onebrain-sync.ts:90-167 | On unchanged data a history makes at most one call per stale item and one more per run that threw |
| SyncSafety.ReturnsIff | apps/workers/src/onebrain-sync.ts:108-159 | A run returns if and only if each item is blank, or its lookup works and it is current or accepted |
| SyncSafety.ReachesIff | apps/workers/src/onebrain-sync.ts:108-159 | A run gets as far as an item if and only if every item before it meets that condition |
| SyncSafety.CalledIff | apps/workers/src/onebrain-sync.ts:125-145 | A run calls for an item, once, if and only if it gets to it, the item is stale and its lookup works |
| SyncSafety.BecomesCurrentIff | apps/workers/src/onebrain-sync.ts:125-157 | After a run an item is current if and only if it was, or the run got to it and its attempt did not leave it stale |
| SyncSafety.FailingItemStarvesTheRest | apps/workers/src/onebrain-sync.ts:146-157 | While one stale item's attempts leave it stale, every run throws and no item after it is called for or recorded |
| SyncSafety.MirrorIff | apps/workers/src/onebrain-sync.ts:136-157 | A job keeps an item's synced record equal to what the provider holds, except exactly when it is the item's own and an unrecorded intake replaces a synced one |
| SyncSafety.RemoteIsCurrent | apps/workers/src/onebrain-sync.ts:90-167 | With an injective hash, after any history of changing data and failing runs the provider holds the tenant's own record of the item's own current text and facts, for every item with a text that the last run got through and none of whose own intakes went unrecorded |
| Embeddings.AlignedIff | packages/core/src/embeddings.ts:72-73 | Sorting by index puts each vector at the index it claims if and only if the indices are distinct and dense |
| Embeddings.ReorderAligns | packages/core/src/embeddings.ts:72-73 | For a response that answers every text once, in any order, the i-th vector is the embedding of the i-th text |
| Embeddings.GapShifts | packages/core/src/embeddings.ts:72-73 | A response that leaves one text out returns every later vector one place too early |
| Backfill.Backfiller.StorePage | apps/workers/src/backfill-embeddings.ts:57-66 | The inner loop stores the vectors at their positions, passes over a chunk without one and counts the stored, up to a write that throws |
| Backfill.Backfiller.BackfillTenant | apps/workers/src/backfill-embeddings.ts:43-76 | The endless loop ends, with the rows and the count of the specification |
| Backfill.Backfiller.BackfillMissingEmbeddings | apps/workers/src/backfill-embeddings.ts:35-82 | The run over all tenants, up to a provider or a store write that throws |
| Backfill.RoundShrinks | apps/workers/src/backfill-embeddings.ts:43-76 | Every round shrinks the missing set by exactly the vectors it wrote, and one that wrote nothing changed nothing |
| Backfill.CountedIsDrop | apps/workers/src/backfill-embeddings.ts:42-81 | A tenant's count is exactly the drop in its missing chunks |
| Backfill.TotalIsDrop | apps/workers/src/backfill-embeddings.ts:35-82 | The reported total is exactly the drop in missing chunks over all tenants |
| Backfill.ExitCondition | apps/workers/src/backfill-embeddings.ts:48-76 | A tenant is left with none missing, or with a last listed page none of whose chunks got a vector |
| Backfill.RunAligned | apps/workers/src/backfill-embeddings.ts:35-82 | With a faithful provider every chunk either is unchanged or was missing and holds the embedding of its own title and content, as far as 8000 characters |
| Backfill.InputIsOwnText | apps/workers/src/backfill-embeddings.ts:53-55 | What is sent for a chunk is its title, a line feed and its content, without a part that is empty, as far as 8000 characters |
| Backfill.CompleteFills | apps/workers/src/backfill-embeddings.ts:33-76 | A provider that always answers every text, over a store that does not throw, leaves none missing, in one call per hundred missing chunks |
| Backfill.RunFills | apps/workers/src/backfill-embeddings.ts:33-82 | With such a provider and store the run over all tenants returns, leaves no tenant with a missing chunk, and makes only those calls |
| Backfill.RunExits | apps/workers/src/backfill-embeddings.ts:35-82 | A run that returns leaves every tenant with none missing, or with a last listed page none of whose chunks got a vector |
| Backfill.OpenAiFaithful | packages/core/src/embeddings.ts:46-74 | The OpenAI provider is faithful when its responses answer every text by dense indices |
| Cosine.CosineSimilarity | packages/core/src/embeddings.ts:106-124 | The loop's result lies in [-1, 1], is 0 without two non-zero vectors of one length, and otherwise times both norms is the dot product |
| Cosine.CauchySchwarz | packages/core/src/embeddings.ts:111-119 | The accumulators satisfy dot * dot <= normA * normB for vectors of any equal length |
| Cosine.CosineSymmetric | packages/core/src/embeddings.ts:106-124 | The similarity is symmetric |
| Cosine.ZeroCases | packages/core/src/embeddings.ts:107-122 | The zero result covers exactly a length mismatch and an empty or all-zero vector |
| RateLimit.ClientLimiter.IsClientRateLimited | apps/widget/src/widget.ts:1807-1811 | The filter keeps the stamps less than a minute old, and the answer is whether ten are left |
| RateLimit.ClientLimiter.SendChatMessage | apps/widget/src/widget.ts:1257-1279 | A message is accepted and stamped, or refused with only the pruning done |
| RateLimit.ClientLimiter.ResetState | apps/widget/src/widget.ts:1385-1398 | A reset forgets every stamp |
| RateLimit.DecidesAsHistory | apps/widget/src/widget.ts:1807-1811 | Without a reset and under a clock that never goes back, the pruned stamps decide each attempt as the whole history would |
| RateLimit.AtMostTenAMinute | apps/widget/src/widget.ts:1257-1279 | Under such a clock every minute of every run holds at most ten accepted sends, and ten more for each reset inside that minute |
| RateLimit.ResetsDefeatTheLimit | apps/widget/src/widget.ts:1385-1398 | That bound is reached for every number of resets in a minute, at one instant |
| OperatorPolls.Widget.PollAnswered | apps/widget/src/widget.ts:1235-1255 | The loop shows the replies of a response in order and leaves the cursor at the last, and a failed or empty poll changes nothing |
| OperatorPolls.ShownOnceInOrder | apps/widget/src/widget.ts:1223-1255 | Without overlapping polls and with whole-millisecond times, after every event the shown replies are the first ones of the log, and the cursor is at the last of them |
| OperatorPolls.CursorNeverBack | apps/widget/src/widget.ts:1223-1255 | In runs whose answers come back to the cursor they were asked with, overlapping or not, the cursor never goes back |
| OperatorPolls.OverlapIff | apps/widget/src/widget.ts:1204-1255 | With whole-millisecond times and any overlap of polls, the shown replies are the first ones of the log after every event if and only if each answer that brings replies comes back to the cursor it was asked with |
| OperatorPolls.CatchesUp | apps/api/src/server.ts:4514-4528 | Every poll of a widget in step brings it fifty replies further, up to the end of the log |
| OperatorPolls.IdlePollIff | packages/db/src/repository.ts:4871-4890 | With the cursor at the end of the log, a poll shows nothing if and only if the last reply's time is a whole millisecond |
| OperatorPolls.RepeatsWithoutEnd | apps/widget/src/widget.ts:1204-1255 | Otherwise every further poll shows stored replies again |
| OperatorPolls.FaithfulIff | apps/widget/src/widget.ts:1204-1255 | Every run of polls without overlap shows a log in order, each reply once, if and only if all its times are whole milliseconds |
| OperatorPolls.OverlapDuplicates | apps/widget/src/widget.ts:1204-1214 | A run of two overlapping polls shows one reply twice, whatever its time |
| OperatorPolls.OverlapMovesCursorBack | apps/widget/src/widget.ts:1248-1251 | A run in which a late answer of an overlapped poll shows a reply again and moves the cursor back |
| OperatorPolls.LateAnswerIff | apps/widget/src/widget.ts:1248-1251 | While replies have been in order, an answer leaves the cursor in place if and only if it is empty or ends with the last reply shown, and moves it back if and only if it ends with an earlier one |

## Left out

- Characters: strings are sequences of characters; UTF-8 decoding of chunks that split a character, and UTF-16 code units in `slice` and `length`, are not modelled.
- The SMTP connection: sockets, TLS, timeouts, authentication and the command sequence; `from` and `to` are assumed free of line feeds, as validated addresses are.
- SmtpDelivery.Conservation: is stated for reply codes and for streams without unsafe tails, because with one the parser reads more replies than the stream has (UnsafeTailSplits); ChunkingInvariance gives the exact condition for codes and TextsIff the one for texts.
- SmtpDelivery.LosslessIff: compares reply codes; SmtpTexts.TextsLossless compares the texts as well.
- SmtpDelivery.ChunkingInvariance: is about reply codes, since a cut inside a reply's last line can shorten its text in any stream; SmtpTexts.TextsIff says which cuts do.
- SmtpSessions.LosslessIffReadsLead: compares reply codes; SmtpTexts.TextsIff adds the condition for texts.
- SmtpSessions.LockStepLossless: compares reply codes; SmtpTexts.TextsLossless adds the condition for texts.
- SmtpRepair.RepairedIsLossless: compares reply codes, since swapping the tests alone does not keep texts whole; SmtpTexts.WholeLossless is the repair that does.
- Numbers: scores, amounts, observations and vectors are exact reals; rounding, NaN, infinities and number printing are not modelled.
- Text scoring and normalisation: the operations of `text.ts` are arbitrary functions, so nothing is claimed about which texts match.
- Wording: the sentences the engine says itself, default topics and default intents are parameters, and trace step names are an enumeration.
- Cosine.CosineSimilarity: takes the square root as a parameter that is exact on non-negative reals.
- Crashes inside `resolve` of the tombstone consumer, and erasures that throw, count as crashes before the next effect, since they change nothing; tenants created between runs are not modelled in Accounts.
- The outbox's own store: a run that ends because `markFailed` or the listing throws is cut after a number of recorded rows; inserts during a history are not modelled, as ProgressBound assumes none.
- Deliveries.SendsAccounted: counts an adapter exception and a failed recording after a send alike as a throw at that delivery; a recording that takes effect and then throws is not modelled.
- Sync.Exporter.SyncApprovedKnowledge: the hash is a parameter, injective only for RemoteIsCurrent; the intake's constant fields, the stored external ids and the log lines are omitted, and a listing that throws is a run that ends at its first item's lookup.
- Backfill: chunks added during a run, a tenant or page listing that throws, and the log lines are not modelled.
- The whole metrics page: `render` of the histogram is modelled per series (RenderEntry); help texts, gauges and the process metrics are left out.
- OperatorPolls.FaithfulIff: assumes strictly increasing stored times and a log that only grows; a reset of the conversation while a poll is in flight, reloading the page and the trimming of stored messages are left out.
- RateLimit.AtMostTenAMinute: starts from a widget without stamps; stamps restored from local storage are not modelled.
- HTTP routes, job queues, schemas, dashboards, billing, sessions and secrets: plumbing, or outside what is modelled here.
