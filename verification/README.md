# hallpass coordination layer: a verified model

A Dafny model of the part of hallpass where state, interleaving, parsing and arithmetic meet: the
durable agent-to-agent message log, the FLEX codec that runs over it, the at-least-once protocol
between an orchestrator and its workers, the lease-based task queue, and the small machines that
guard calls (revocation view, token cache, retry and breaker, rate limiters, tool ranker).
`dafny verify dfyconfig.toml` checks the whole project.

| module | models |
|---|---|
| `Text`, `Sets`, `Options` | strings, leftmost regular-expression substitution, small helpers |
| `Sanitizer`, `Frame` | `sanitize`, `frame_untrusted` |
| `Flex` | `encode`, `parse` |
| `A2A`, `Bus` | the two stock stores; `post`, `catch_up`, `ack` |
| `Orchestration`, `Agents` | task and result messages; `Orchestrator` and `Worker` over the bus |
| `Protocol`, `Passes`, `Gathers` | the same protocol as interleaved steps, with crashes and shared cursors; one pass; one gather |
| `SharedCursor` | what a gather misses to other readers of its cursor |
| `FlexProtocol` | that protocol with FLEX as its language |
| `SharedLog` | the multi-replica append protocol as transactions |
| `TaskQueue`, `QueueTable`, `Runner`, `WorkerLoop` | both queue backends, `serve_queue`, `run_worker` |
| `Revocation`, `Verifier` | `CachedRevocationList`, `TokenVerifier` |
| `Http`, `RateLimit`, `SharedRateLimit`, `Search` | retry and breaker, both limiters, BM25 |

Code that changes objects in place is a class whose methods are proved against functions of the old
state; the laws are lemmas about those functions and about whole runs. Where the source leaves a gap
between two locked blocks or two statements, the gap is a gap between two steps.

## What the model shows about the code

- `parse(encode(m)) == m` does not hold for every message `encode` accepts, as `flex.py` says it
  does. It holds exactly for the canonical ones (`Flex.RoundTrip`), a condition on the message alone;
  `Flex.RoundTripFailsOnEqualsInKey` is a counterexample. What `parse` returns is always canonical.
- An argument named `do` replaces the operation and a field named `ok` replaces the verdict; the
  exact conditions under which a task and a result arrive as sent are `PortableTask` and
  `PortableOutcome`. They are part of every end-to-end statement.
- `gather` acks whatever it reads. A result nobody asked for is not found by a later `gather` of the
  same orchestrator (`Gathers.ReadResultsAreGone`). A task addressed to a subject under which
  somebody also gathers on the channel can be acked without being handled, since cursors belong to
  subjects: every task at or below a subject's cursor is answered, whatever happens, exactly when no
  gather runs under that subject (`Protocol.AtLeastOnceExactly`).
- A `gather` reads the log from its subject's cursor to the head, but for what another reader of the
  cursor acks between two of its rounds. It finds every result there, whatever happens, exactly when
  it asks for one round, the default, or nobody else reads under its subject
  (`FlexProtocol.GatherFindsAllExactly`).
- Whatever reads as a result counts as one, whoever posted it. What a worker posted is its reply, and
  arrives as the handler made it exactly when it is portable (`FlexProtocol.EndToEnd`).
- Catching up returns everything unread exactly for a positive `page_size`, for nothing unread, or
  for a negative one over SQL; a Python slice drops the rest (`Bus.CollectsAllExactly`). A first ack
  that is negative is stored as 0 in memory and raw in SQL (`Bus.StoresAgree`).
- The lease that counts is the claimant's: a claim made with lease `h` is safe for `h` from claims
  made with lease `k` exactly when `k >= h` (`TaskQueue.LeaseIsKeptExactly`).
- A finished task keeps its result exactly until its id is enqueued again
  (`TaskQueue.ResultStaysExactly`). The table refuses a reused id where the memory queue takes it, and
  the two answer alike exactly when no id is reused (`QueueTable.AnswersAgreeExactly`).
- The age of a revocation answer is bounded from its freshness check. Measured from the answer, TTL
  and delay are a bound exactly when no call is held up in between, and the longest such hold has to
  be added otherwise (`Revocation.BoundIsFromTheCheck`, `Revocation.AnswersAreRecentWhenGiven`). A
  local revoke is seen at once exactly when nothing in flight can undo it (`Revocation.SeenAtOnce`).
- The token cache is invisible exactly when acceptance by the decoder lasts until `exp`
  (`Verifier.CacheIsInvisible`). With a decoder that rounds `exp` down that is so exactly when no
  token it can accept has a fraction in its `exp` (`Verifier.RoundingShowsTheCache`).
- The extra second in the shared limiter's expiry is what the cap needs: it holds exactly when an
  increment comes no later after its clock reading than the expiry exceeds the window
  (`SharedRateLimit.CapNeedsTheSlack`).

## Model

| member | source | states |
|---|---|---|
| `Sanitizer.EscapeLengthIsExact` | src/hallpass/sanitize.py:32-37 | the scanner matches at the head of a text exactly when a prefix is one of the four escape forms, and takes precisely the leftmost-first, longest match the pattern takes; the control-sequence form is that of section 5.4 of ECMA-48 |
| `Sanitizer.ByteRanges` | src/hallpass/sanitize.py:32-37 | the parameter, intermediate and final bytes are those of section 5.4 of ECMA-48, and control strings are introduced and ended as the pattern says |
| `Sanitizer.SanitizeIsClean` | src/hallpass/sanitize.py:40-72 | for every text, the output holds no carriage return and no stripped code point |
| `Sanitizer.OnePass` | src/hallpass/sanitize.py:70-72 | with newlines normalised, a text loses the escape sequence it starts with or else its first character if that is stripped, and so on for what follows |
| `Sanitizer.WhatIsKept` | src/hallpass/sanitize.py:40-57 | the code points that survive, listed: tab, newline and all that is no control, bidi or invisible format character |
| `Sanitizer.IdentityExactlyOnClean` | src/hallpass/sanitize.py:63-76 | without a length, a text is returned as it is if and only if it holds no carriage return and no stripped code point |
| `Sanitizer.CutFacts` | src/hallpass/sanitize.py:73-75 | a text within the limit is kept; a longer one keeps a prefix followed by the marker, as long as the larger of the limit and the marker; clean stays clean |
| `Sanitizer.Idempotent` | src/hallpass/sanitize.py:63-76 | sanitizing twice is sanitizing once, for every text and every `max_length`, negative ones too |
| `Sanitizer.OnlyRemoves` | src/hallpass/sanitize.py:70-72 | without truncation the output is a subsequence of the newline-normalised input |
| `Sanitizer.NewlinesNormalised` | src/hallpass/sanitize.py:70 | after any text without a carriage return, CRLF and a lone CR each become one LF, and the rest is normalised by itself |
| `Sanitizer.PlainTextKeepsItsCharacters` | src/hallpass/sanitize.py:71-72 | a text without the escape character loses its stripped code points and nothing else |
| `Sanitizer.CleanPrefixSurvives` | src/hallpass/sanitize.py:63-76 | a clean prefix comes through unchanged whatever follows it |
| `Frame.TagLengthIsSound` | src/hallpass/sanitize.py:89 | what the tag matcher takes is a tag: brackets, optional slash and white space, the label in any case |
| `Frame.TagLengthIsComplete` | src/hallpass/sanitize.py:89 | whatever prefix of a text is a tag, the matcher takes exactly that prefix |
| `Frame.AnyCaseIsATag` | src/hallpass/sanitize.py:89 | a label in any case makes a tag, opening or closing |
| `Frame.DefangPointwise` | src/hallpass/sanitize.py:90-92 | defanging changes nothing but angle brackets, each into its look-alike, in place |
| `Frame.DefangLeavesNone` | src/hallpass/sanitize.py:89-92 | after defanging no tag starts anywhere: none is left and the replacement makes none |
| `Frame.HarmlessTextIsKept` | src/hallpass/sanitize.py:89-92 | a text without a tag is framed as it stands |
| `Frame.FrameHoldsTheText` | src/hallpass/sanitize.py:79-93 | a frame is made for exactly the legal labels and holds, between its tags, the cleaned text with nothing but angle brackets changed |
| `Frame.FrameCannotBeForged` | src/hallpass/sanitize.py:79-93 | for every text and legal label, the tags in the framed result are exactly two: the opening one at the start and the closing one at the end |
| `Flex.Encode` | src/hallpass/flex.py:57-76 | encoding succeeds if and only if every part is a non-empty token, and then returns the wire form; otherwise it names a part |
| `Flex.SortedKeysIncrease` | src/hallpass/flex.py:69 | fields are emitted in strictly increasing key order |
| `Flex.SortedKeysListsAll` | src/hallpass/flex.py:69 | the keys of the emitted fields are exactly those of the message, each once |
| `Flex.ParseText` | src/hallpass/flex.py:79-110 | the parsing loop computes the parse of the cleaned text |
| `Flex.NothingIsLost` | src/hallpass/flex.py:79-110 | for every text: the first header word is the kind, the marked ones are the recipients and references in order, the last of several values of a key wins, and all other words start the note, in order, before the words after the separator |
| `Flex.EveryWordIsThere` | src/hallpass/flex.py:93-102 | an unmarked word is a field or is kept in the note, never neither |
| `Text.SplitAtSpace` | src/hallpass/flex.py:85 | white space separates words and belongs to none |
| `Text.WhiteSpaceIs` | src/hallpass/flex.py:60 | the white-space code points, listed |
| `Text.StripIsMiddle` | src/hallpass/flex.py:109 | stripping takes white space off both ends and nothing else |
| `Flex.CanonicalRoundTrip` | src/hallpass/flex.py:63-110 | a canonical message that can be printed is read back as it was |
| `Flex.ParseIsCanonical` | src/hallpass/flex.py:79-110 | whatever the text, what is read is canonical: no `=` in a key, no leading mark, a stripped note, nothing `sanitize` would change |
| `Flex.RoundTrip` | src/hallpass/flex.py:63-110 | a printable message survives the round trip if and only if it is canonical |
| `Flex.ReparseIsStable` | src/hallpass/flex.py:79-110 | for every text, if what was read can be printed then printing and reading it again gives the same message |
| `Flex.RoundTripFailsOnEqualsInKey` | src/hallpass/flex.py:25 | a message that is accepted and does not survive the round trip |
| `Flex.ParseOfSanitized` | src/hallpass/flex.py:83 | parsing a body is the same before and after the bus has cleaned it |
| `Flex.KindAndRefSurvive` | src/hallpass/flex.py:66-97 | the kind and the first reference of a printed message are read back whatever its fields and note hold |
| `Flex.ParsedRefsAreCleanTokens` | src/hallpass/flex.py:85-97 | every reference read from any text is a clean token, so it can be printed back |
| `A2A.InMemoryA2AStore.Append` | src/hallpass/a2a.py:270-275 | appends exactly one message under the next number of its channel, keeps every log gap-free and the other channels as they were |
| `A2A.InMemoryA2AStore.AdvanceCursor` | src/hallpass/a2a.py:293-297 | moves one cursor, forward only, and returns it |
| `A2A.SqliteA2AStore.Append` | src/hallpass/a2a.py:334-352 | greatest number plus one is the next of the channel, so the table keeps the same gap-free logs |
| `A2A.SqliteA2AStore.AdvanceCursor` | src/hallpass/a2a.py:381-400 | the upsert moves one cursor forward only; its first write is raw |
| `A2A.Store.ReadAfter` | src/hallpass/a2a.py:277-282 | both stores return the same page of the messages after a position, ordered, up to what a limit means to each |
| `A2A.PageIsFront` | src/hallpass/a2a.py:282 | a page of a non-negative limit is the front of the rows, that many or all |
| `A2A.Store.HeadOf` | src/hallpass/a2a.py:284-287 | the head is the length of the log in both stores |
| `A2A.AfterIsSuffix` | src/hallpass/a2a.py:282 | on a gap-free log, the messages after a position are the suffix from that position |
| `A2A.CollectedStep` | src/hallpass/a2a.py:519-526 | a page followed by what the loop collects after it is what the loop collects, and less remains: the loop ends |
| `Bus.A2ABus.Post` | src/hallpass/a2a.py:499-506 | posts one message if the channel is declared and the scopes suffice, and otherwise changes nothing |
| `Bus.A2ABus.CatchUp` | src/hallpass/a2a.py:508-528 | terminates for every page size; without acking, returns one message for each row the paging loop collects after the cursor, with its number, sender, time and channel, and its body sanitized and clean if reads are cleaned and raw otherwise |
| `Bus.A2ABus.Ack` | src/hallpass/a2a.py:530-540 | refuses exactly the unauthorized and the acks past the head; otherwise advances this reader's cursor only |
| `Bus.CatchUpIsTheLog` | src/hallpass/a2a.py:508-528 | for a page size of at least 1, catch-up on either store is the log past the cursor, in order, once each |
| `Bus.CollectsAllExactly` | src/hallpass/a2a.py:282 | catch-up collects everything unread if and only if the page size is positive, nothing is unread, or the page size is negative over SQL; a negative one over a Python list drops that many from the end, and 0 reads nothing |
| `Bus.AcksStayInTheLog` | src/hallpass/a2a.py:530-540 | accepted non-negative acks keep a cursor between 0 and the head and never move it back |
| `Bus.StoresAgree` | src/hallpass/a2a.py:293-297 | after any acks both stores read the same messages; their cursors are equal if and only if no ack was made or one was not negative |
| `Bus.PagesAreContiguous` | src/hallpass/a2a.py:519-526 | with appends between pages, the pages read so far are the stretch of the log from the cursor on, without a gap |
| `Bus.PagingUnderAppends` | src/hallpass/a2a.py:519-526 | when the loop ends it has read everything up to the head it then saw, which is at least the head at the start |
| `Orchestration.CleaningChangesNothing` | src/hallpass/a2a.py:524 | cleaning a body on read changes neither the task nor the result read from it |
| `Orchestration.TaskIsRead` | src/hallpass/orchestrator.py:157-171 | a worker takes for a task exactly the messages of that kind that name it and carry a reference; the operation is the field `do`, empty without one, and the other fields are the arguments |
| `Orchestration.ResultIsRead` | src/hallpass/orchestrator.py:115-128 | an orchestrator takes for a result any message of that kind with a reference; it is ok only if the field says `true` |
| `Orchestration.AnswerIsAResult` | src/hallpass/orchestrator.py:178-198 | every reply, with any fields or exception name, is read as a result for its task |
| `Orchestration.ResultIsFaithful` | src/hallpass/orchestrator.py:178-198 | a result carries the handler's own fields, or its failure, if and only if the outcome is portable |
| `Orchestration.TaskIsFaithful` | src/hallpass/orchestrator.py:84-103 | a worker sees exactly the task that was dispatched if and only if the task is portable |
| `Agents.Orchestrator.Dispatch` | src/hallpass/orchestrator.py:84-103 | posts exactly the printed task, or nothing when it cannot be printed or posted |
| `Agents.Orchestrator.Gather` | src/hallpass/orchestrator.py:105-130 | for any number of rounds, keeps the first result of each wanted id among the unread messages and acks all it read |
| `Agents.Worker.RunOnce` | src/hallpass/orchestrator.py:152-198 | one reply per task addressed to the worker, in log order, each of which reads as what the handler of its operation made of that very task, if that is portable and only then, or as the failure it is; then an ack of exactly what was read; a refused post leaves log and cursor alone |
| `Agents.FirstResultWins` | src/hallpass/orchestrator.py:115-128 | the first of several results for a wanted id is the one kept |
| `Agents.NothingElseFound` | src/hallpass/orchestrator.py:115-128 | an id that is not wanted or has no result among the messages is not returned |
| `Agents.PostedExtends` | src/hallpass/orchestrator.py:198 | posting bodies one by one extends the log by exactly those, in order |
| `Protocol.StepKeepsInv` | src/hallpass/orchestrator.py:105-176 | every step of dispatch, pass, crash and gather keeps the protocol invariant, whoever shares a cursor |
| `Protocol.AtLeastOnce` | src/hallpass/orchestrator.py:105-176 | in every run, with crashes anywhere, each task at or below its subject's cursor has a reply of that subject posted after it or was acked over by a gather of that subject |
| `Protocol.AtLeastOnceExactly` | src/hallpass/orchestrator.py:105-176 | for all parties and every subject a task can be sent to: every run leaves all tasks at or below the cursor of the subject answered if and only if no gather runs under it |
| `Protocol.WorkersAreServed` | src/hallpass/orchestrator.py:152-176 | for a subject under which nobody gathers, each task at or below its cursor has a reply of that subject posted after it |
| `Protocol.GatherLosesTask` | src/hallpass/orchestrator.py:119-129 | with any parties among which a gather runs under the subject, and for every task sent to it, a run acks the task by that gather and leaves it unanswered |
| `Gathers.GatherIsExact` | src/hallpass/orchestrator.py:105-130 | in every run, a gather returns for an id the first result for it among the messages it read, whoever posted it, and every wanted id with a result among them |
| `Gathers.SkipsOnlyWhatOthersTook` | src/hallpass/orchestrator.py:105-130 | what a gather reads lies from the cursor it started from to the head its last look saw, and that is all of it but for what another reader under the same subject acked over |
| `Gathers.SoleReaderMissesNothing` | src/hallpass/orchestrator.py:105-130 | a gather of one round, and one that is the only reader under its subject, reads exactly the positions from that cursor to that head |
| `Gathers.ReadsFromItsCursor` | src/hallpass/orchestrator.py:105-130 | every gather that returned is a call of the run which neither crashed nor began anew: it started from its subject's cursor as it was when first read, and its head is the end of the log as it was at its last look |
| `SharedCursor.FindsAllExactly` | src/hallpass/orchestrator.py:105-130 | for all parties, in any message language with such messages: a gather returns every wanted id with a result from its cursor to its head, in every run, if and only if it asks for one round or nobody else reads under its subject |
| `Gathers.ReadResultsAreGone` | src/hallpass/orchestrator.py:129 | an id whose results stand only at or below what an earlier gather read is not found by a later gather of the same orchestrator |
| `Passes.PassRepliesInOrder` | src/hallpass/orchestrator.py:160-174 | in any stretch of a run in which a worker's pass goes on, whatever the others do between its steps, what the worker has appended is one reply for each task of its subject that it is past, in log order, and nothing else |
| `Passes.PassEndsWithItsAck` | src/hallpass/orchestrator.py:160-175 | when such a pass acks it has replied to exactly the tasks among what it read, and the cursor of its subject becomes the larger of itself and the last number read; log and other cursors stay |
| `FlexProtocol.PassPostsWhatRunOncePosts` | src/hallpass/orchestrator.py:152-198 | in any such stretch, the bodies a worker's pass has appended are those the worker's method posts for the rows it is past |
| `FlexProtocol.FlexIsLawful` | src/hallpass/orchestrator.py:178-198 | FLEX meets the one law the protocol needs of its message language |
| `FlexProtocol.DispatchIsAPost` | src/hallpass/orchestrator.py:84-103 | a dispatched message is a post that is never read as a result, whatever its arguments |
| `FlexProtocol.EndToEnd` | src/hallpass/orchestrator.py:84-198 | over every interleaving, what a gather returns for an id is the first result for it in the log from its cursor to its head, earlier ones being lost only to another reader of that cursor between two rounds; if a worker posted it, it is the reply to an earlier task with that id, faithful to the handler if and only if the outcome is portable, and the worker handled exactly what was dispatched if that was portable |
| `FlexProtocol.NoReplyIsMissed` | src/hallpass/orchestrator.py:105-130 | every wanted id with a reply or other result from the cursor of a gather to its head is in what it returns, unless the gather has several rounds, shares its cursor, and another reader acked over that result |
| `FlexProtocol.GatherFindsAllExactly` | src/hallpass/orchestrator.py:105-130 | for all parties, a gather returns every wanted id with a result from its cursor to its head in every run if and only if it asks for one round or nobody else reads under its subject |
| `FlexProtocol.FreshIdIsAnswered` | src/hallpass/orchestrator.py:84-198 | where one message alone is a task with the id and was dispatched portably, a result a worker posted is from the worker it names, answers that dispatch and tells what that worker's handler did, if and only if the outcome is portable |
| `FlexProtocol.FreshIdIsHandled` | src/hallpass/orchestrator.py:84-198 | in such a case the result is the answer of that worker's handler to the operation, arguments and note that were dispatched, if and only if that is portable, or `no handler` without one |
| `SharedLog.StepKeepsInv` | src/hallpass/postgres_backends.py:377-435 | every step of posters (which may abort) and readers on any number of replicas keeps the log invariant |
| `SharedLog.LogIsGapFree` | src/hallpass/postgres_backends.py:377-393 | at every moment the committed numbers of a channel are exactly 1..n and no cursor is past n |
| `SharedLog.CommitsComeAfterReaders` | src/hallpass/postgres_backends.py:377-435 | a commit takes a number nobody has, past every acked cursor and every reader's position |
| `SharedLog.NothingIsSkipped` | src/hallpass/postgres_backends.py:395-435 | a reader that acks what it reads has been handed every message at or below its cursor |
| `SharedLog.EarlyReleaseCollides` | src/hallpass/postgres_backends.py:379-384 | if the lock could go before the commit, two posters would claim one number |
| `SharedLog.ClaimsAreDistinctExactly` | src/hallpass/postgres_backends.py:377-393 | in every run no two transactions of a channel hold one number, nor one a committed number, if and only if the lock is held until commit |
| `TaskQueue.InMemoryTaskQueueBackend.Enqueue` | src/hallpass/taskqueue.py:108-119 | puts one pending task under its id, at the end or in the place of a reused one |
| `TaskQueue.InMemoryTaskQueueBackend.Claim` | src/hallpass/taskqueue.py:121-143 | leases the oldest claimable task, first of ties, and hands out what was enqueued |
| `TaskQueue.InMemoryTaskQueueBackend.Complete` | src/hallpass/taskqueue.py:145-156 | marks a known unfinished task done, whoever asks, and says whether it did |
| `TaskQueue.InMemoryTaskQueueBackend.PendingCount` | src/hallpass/taskqueue.py:176-178 | the counting loop returns the number of pending tasks |
| `TaskQueue.UnfinishedInOrder` | src/hallpass/taskqueue.py:170-174 | the listing holds exactly the unfinished tasks, by age and then in the order of the dict |
| `TaskQueue.ExecEffect` | src/hallpass/taskqueue.py:108-156 | an operation changes the task with one id as its answer says and leaves every other task alone |
| `TaskQueue.ClaimFacts` | src/hallpass/taskqueue.py:121-143 | a claim is handed a task that was pending or whose lease had run out by the claimant's lease length, never one that is done |
| `TaskQueue.FirstCompletionWins` | src/hallpass/taskqueue.py:145-168 | a completion that returned True is what the result reads until the id is enqueued again; until then completions return False and the task is not handed out |
| `TaskQueue.ResultStaysExactly` | src/hallpass/taskqueue.py:108-168 | after a completion that returned True the result stays there if and only if the id is not enqueued again |
| `TaskQueue.EnqueuedIsPending` | src/hallpass/taskqueue.py:108-119 | in any run, an id just enqueued has no result and a pending task as it was sent |
| `TaskQueue.DoneMeansCompletedOnce` | src/hallpass/taskqueue.py:145-168 | a task has a result if and only if a completion of its id returned True after the id was last enqueued, and between two such completions it was enqueued again |
| `TaskQueue.ClaimsAreALeaseApart` | src/hallpass/taskqueue.py:121-143 | with a clock that does not go back, two claims of a task not enqueued in between are more than the later claimant's lease apart |
| `TaskQueue.LeaseIsKeptExactly` | src/hallpass/taskqueue.py:121-143 | in all runs with fresh ids and such a clock, a claim with lease `h` is more than `h` before any later claim of its task with lease `k`, if and only if `k >= h` or `h` is negative |
| `TaskQueue.ShorterLeaseTakesOver` | src/hallpass/taskqueue.py:122-128 | for every lease and every shorter one there is a run in which the shorter claimant takes the task within its holder's lease |
| `TaskQueue.Conservation` | src/hallpass/taskqueue.py:108-156 | pending, leased and done tasks together are the ids ever enqueued; with fresh ids, the number of enqueues |
| `QueueTable.SqliteTaskQueueBackend.Claim` | src/hallpass/taskqueue.py:229-254 | leases one of the oldest claimable rows and hands it out |
| `QueueTable.SqliteTaskQueueBackend.Complete` | src/hallpass/taskqueue.py:256-279 | marks a known unfinished row done and says whether it did |
| `QueueTable.SqliteTaskQueueBackend.Outstanding` | src/hallpass/taskqueue.py:298-303 | lists every unfinished id once, by age |
| `QueueTable.OneListing` | src/hallpass/taskqueue.py:171-174 | two listings of the unfinished ids by age are one and the same |
| `QueueTable.ListingIsExact` | src/hallpass/taskqueue.py:171-174 | a list holds exactly the unfinished ids by age, each once, if and only if it is the one the memory form returns |
| `QueueTable.StepAgrees` | src/hallpass/taskqueue.py:93-310 | one operation gets the same answer from both backends and keeps their states matching |
| `QueueTable.BackendsAgree` | src/hallpass/taskqueue.py:93-310 | with fresh ids and increasing creation times, claim, complete, result, outstanding and pending_count answer alike on every operation sequence |
| `QueueTable.AnswersAgreeExactly` | src/hallpass/taskqueue.py:93-310 | with increasing creation times, all answers of the two backends agree if and only if no id is enqueued twice |
| `QueueTable.ReusedIdDiffers` | src/hallpass/taskqueue.py:223-227 | in any run, the first reuse of an id is refused by the table, which stays as it was, and accepted in memory |
| `Runner.ServeQueue` | src/hallpass/runner.py:83-132 | the loop ends; it returns how many tasks became done, each with its handler's fields or its failure, the others untouched; unless stopped, its last claim found nothing claimable |
| `Runner.PassServesOne` | src/hallpass/runner.py:111-131 | claiming and completing serves one task and leaves the others alone |
| `Runner.ServedRecords` | src/hallpass/runner.py:112-131 | a served task is recorded with the fields its handler returned for it, or as failed under the name of what was raised, or as `no handler` |
| `Runner.DrainedLeavesOnlyLeases` | src/hallpass/runner.py:83-132 | what a drained queue still holds was leased before, under leases that still stand; what became done was served |
| `WorkerLoop.RunWorker` | src/hallpass/runner.py:47-80 | the loop ends; its first pass answers every unread task and later ones find only the worker's own replies; unless stopped nothing is left unread; without `stop` it takes as many idle passes as allowed, at least one, and one more if it answered anything |
| `WorkerLoop.UnreadAfterPass` | src/hallpass/orchestrator.py:152-176 | after a pass that read something, what is unread are its own replies, and none of them is a task for the worker |
| `Revocation.CachedRevocationList.IsRevoked` | src/hallpass/revocation.py:110-125 | reloads exactly when the view is not primed or as old as the TTL, and answers from the view |
| `Revocation.CachedRevocationList.Write` | src/hallpass/revocation.py:127-135 | writes through to the source and amends the local set, leaving its age alone |
| `Revocation.AloneItIsTheMethod` | src/hallpass/revocation.py:110-125 | a call nothing interferes with does in steps what the method does |
| `Revocation.AnswersAreRecent` | src/hallpass/revocation.py:110-135 | in every interleaving, an answer is the source's own at some moment no earlier than its freshness check minus the TTL minus the longest refresh or local write in flight, and is given no later than the longest hold after that check |
| `Revocation.AnswersAreRecentWhenGiven` | src/hallpass/revocation.py:110-135 | measured from the answer, that moment is no earlier than TTL, delay and hold before it |
| `Revocation.SeenAtOnce` | src/hallpass/revocation.py:110-135 | a revoked subject is answered as revoked in every continuation that does not restore it if and only if its revocation is settled |
| `Revocation.LocalRevokeIsSettled` | src/hallpass/revocation.py:116-130 | when a local revoke returns it is settled if and only if no refresh holds a set read before it and no restore of the subject is half done |
| `Revocation.BoundIsFromTheCheck` | src/hallpass/revocation.py:122-125 | for every positive TTL, every answer of every run is as recent as TTL and delay before the answer if and only if no call may be held up between its check and its answer |
| `Verifier.TokenVerifier.Verify` | src/hallpass/identity.py:225-295 | the method with its in-place cache computes the cached verification |
| `Verifier.VerifiedIsWhoWasDecoded` | src/hallpass/identity.py:225-295 | over all runs and sizes, whom a verification answers with has the subject, scopes, claims and kind of the claims the decoder gave for that token at that call, or at an earlier one whose claims have not expired |
| `Verifier.CacheIsInvisible` | src/hallpass/identity.py:225-288 | for every size above 0, every sequence of verify, revoke and restore answers as with no cache if and only if acceptance lasts until `exp` (section 4.1.4 of RFC 7519) |
| `Verifier.RoundingShowsTheCache` | src/hallpass/identity.py:225-288 | with a decoder that compares the time with `exp` rounded down, the cache is invisible if and only if every token it can accept has a whole `exp` |
| `Verifier.CacheIsBounded` | src/hallpass/identity.py:283-287 | the cache never holds more than `cache_size` tokens |
| `Verifier.OldestGoesFirst` | src/hallpass/identity.py:283-287 | when there is no room for a new token the one put in first goes, and only that one |
| `Verifier.RevokedNeverVerifies` | src/hallpass/identity.py:228-295 | whatever the decoder and the cache, a call never answers with a subject that is revoked |
| `Verifier.NegativeSizeVerifiesNothing` | src/hallpass/identity.py:283-287 | with a negative size every verification fails, since making room in an empty cache raises |
| `Http.RetryingHttpClient.Request` | src/hallpass/rest.py:208-233 | at most `max_retries` + 1 requests; every response but the last was worth a retry and was followed by its Retry-After or backoff; the last is returned |
| `Http.FirstWaitIsBase` | src/hallpass/rest.py:221-232 | the first wait is what Retry-After says, or else the base delay up to the cap |
| `Http.WaitsDouble` | src/hallpass/rest.py:221-232 | without Retry-After each wait is twice the one before, up to the cap |
| `Http.CircuitBreakerHttpClient.Request` | src/hallpass/rest.py:277-307 | an open breaker raises without a request and without changing; otherwise one retried call settles the breaker |
| `Http.WhatCounts` | src/hallpass/rest.py:293-306 | a success closes the breaker, an error without a status or with one that trips counts and opens it at the threshold, any other error changes nothing |
| `Http.FailuresCountOutages` | src/hallpass/rest.py:293-306 | in every run the failure count is the number of outages since the last success |
| `Http.OutagesAreBounded` | src/hallpass/rest.py:236-307 | in a stretch of length T without success, at most `failure_threshold` + floor(T / `reset_after`) calls end as outages, costing at most `max_retries` + 1 requests each |
| `Http.ClientErrorsChangeNothing` | src/hallpass/rest.py:274-302 | leaving the client errors out of a run changes neither breaker nor outages nor their cost |
| `Http.NoResetNoBlock` | src/hallpass/rest.py:286-290 | without a positive `reset_after` no call is ever held back |
| `RateLimit.FixedWindowRateLimiter.Check` | src/hallpass/ratelimit.py:53-62 | the deque loop computes one check and touches no other subject |
| `RateLimit.NewLimiter` | src/hallpass/ratelimit.py:43-51 | a limiter is made if and only if `max_calls` is at least 1 and the window positive |
| `RateLimit.DequeIsHistory` | src/hallpass/ratelimit.py:53-62 | at every moment a subject's deque is its accepted times later than some moment before the current window |
| `RateLimit.CheckIsExact` | src/hallpass/ratelimit.py:53-62 | a call is accepted if and only if fewer than `max_calls` of its subject were accepted in the window that ends with it |
| `RateLimit.WindowsHoldAtMostMax` | src/hallpass/ratelimit.py:53-62 | every window of the window's length, half open at either end, anywhere in a run, holds at most `max_calls` accepted calls |
| `SharedRateLimit.RedisRateLimiter.Check` | src/hallpass/redis_backends.py:139-148 | increments the bucket's counter, gives a first hit its expiry, and accepts within the cap |
| `SharedRateLimit.NewLimiter` | src/hallpass/redis_backends.py:103-123 | a limiter is made if and only if `max_calls` is at least 1 and the window positive |
| `SharedRateLimit.StepKeepsInv` | src/hallpass/redis_backends.py:139-148 | every step of any number of replicas keeps tickets distinct and counters alive for their bucket |
| `SharedRateLimit.AdmissionsAreBounded` | src/hallpass/redis_backends.py:139-148 | every run admits at most `max_calls` a bucket and twice that in any window |
| `SharedRateLimit.CapNeedsTheSlack` | src/hallpass/redis_backends.py:139-146 | every bucket of every run keeps the cap if and only if increments are late by no more than `int(window) + 1 - window` |
| `SharedRateLimit.LifetimeExceedsWindow` | src/hallpass/redis_backends.py:146 | the expiry always exceeds the window, by at most a second |
| `Search.Tokenize` | src/hallpass/search.py:36-48 | the nested loops compute the lower-cased pieces of the text |
| `Search.PiecesKeepEveryLetter` | src/hallpass/search.py:36-48 | no letter or digit is lost, added or moved |
| `Search.TokensAreWhole` | src/hallpass/search.py:26-33 | every piece is a non-empty run of word characters without a case boundary inside |
| `Search.SeparatorSplits` | src/hallpass/search.py:26 | any other character separates, so a document's tokens are its name's and its description's |
| `Search.BoundarySplits` | src/hallpass/search.py:30 | a case boundary separates as a separator does |
| `Search.KnownBoundaries` | src/hallpass/search.py:27-30 | where `readNote`, `HTTPServer` and other names break and where not |
| `Search.SnakeIsCamel` | src/hallpass/search.py:37-40 | two words joined by an underscore and the same two in camel case have the same tokens |
| `Search.CountDocs` | src/hallpass/search.py:79-82 | the dictionary built holds for every term the number of documents with it |
| `Search.LexicalRanker.Rank` | src/hallpass/search.py:72-106 | the loops compute every document's score, or report a division by zero, and rank the tools by them |
| `Search.ScoreIsPositive` | src/hallpass/search.py:84-101 | with `k1` at least 0, `b` in [0, 1] and a logarithm positive above 1, every score is defined and positive if and only if the document shares a token with the query |
| `Search.ScoreAddsWeights` | src/hallpass/search.py:88-101 | a query term adds to the score of a document that holds it `log((n + 1) / (df + 0.5)) * (k1 + 1) * tf / (tf + k1 * (1 - b + b * length / average))`, and nothing to the others |
| `Search.MoreAndShorterScoresMore` | src/hallpass/search.py:88-101 | a document no longer than another and with every query term at least as often never scores less, and scores more if it has one more often or is shorter and both hold one, for positive `k1` and `b` |
| `Search.RarerTermScoresMore` | src/hallpass/search.py:96-98 | of two terms a document holds equally often, the one in fewer documents adds more to its score, for an increasing logarithm |
| `Search.RarerMatchScoresMore` | src/hallpass/search.py:96-98 | of two equally long documents that differ in which of two terms they hold, equally often, the one with the rarer term scores more |
| `Search.AverageTimesCount` | src/hallpass/search.py:78 | the average length times the number of documents is their total length, and 1 stands for an average of 0 |
| `Search.DenominatorIsPositive` | src/hallpass/search.py:99 | every denominator is at least 1 |
| `Search.RankedIsExact` | src/hallpass/search.py:103-106 | the ranking lists exactly the positive scores, each once, by falling score, ties in the original order |
| `Search.RankIsExact` | src/hallpass/search.py:72-106 | with those parameters no division by zero occurs, and exactly the tools that share a token with the query are ranked, each once, by falling score, ties in the original order |

## Left out

- Runner.ServeQueue: runs on the in-memory backend; `QueueTable.BackendsAgree` says its claims and completions answer alike on the table.
- Agents.Worker.RunOnce: one clock reading stands for the creation times of all replies of a pass; nothing in the protocol reads them.
- Search.LexicalRanker.Rank: the library sort is a stable insertion, and the logarithm and the lower-casing are parameters.
- Revocation.RevocationSource: the reasons and times of revocations are not kept; nothing reads them.
- Presence and the live roster, the audit trail, channel listing, closing of stores: one map update or one call each.
- `Router` and the facade `TaskQueue`: they forward to what is modelled.
- HTTP server, command line, dashboard, connectors, the pooled client and header placement: input and output.
- Request contents (method, URL, headers, parameters): passed through unchanged by retry and breaker.
- Single-map ledgers (consent, seats, approvals, roles, vault, idempotency): their laws follow from one map update.
- JWT decoding, key lookup and key refresh: one function of the token and the time, for a fixed key set; one clock reading serves the cache and the decoder.
- Handlers are functions of the task: what they do to the outside world, and exceptions that are not `Exception`, are not modelled.
- Random ids are parameters; where a law needs them fresh it says so.
- Serving for ever: a loop with a `stop` that never says so has no end to state; `ServeQueue` and `RunWorker` take a moment at which it does.
- SQL engines: tables are maps or sequences and a transaction is one step, except in `SharedLog`, which assumes only that the advisory lock excludes others until commit or abort and that a statement sees committed rows and its own.
- The Postgres queue's `SKIP LOCKED` claim and Postgres revocation table.
- Locks of one process: a locked block is one step. Clock readings made before a lock are parameters; the sliding-window laws assume they do not go back in the order in which the lock is taken.
- Two concurrent calls through one breaker: calls are sequential.
- Times, scores and delays are reals; floating-point rounding is not modelled.
- Unicode white space is a fixed predicate on characters, lower case and word characters are parameters; unpaired surrogates cannot be written in Dafny's characters.
- JSON columns hold string maps unchanged.
