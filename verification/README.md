# OpenViking benchmark and tooling models

Dafny models of six parts of the OpenViking repository, with proofs of what they promise.

* **Chunked JSON array reader.** `iter_json_array_records` streams a top-level array of objects
  through a buffer, a position, an end-of-file flag and three state flags. `JsonArrayReader.ReadArray`
  is a parser of the whole text that knows none of these. The stream equals it for every text, limit,
  chunk size and way of cutting the text, down to the kind of error. `Json.dfy` holds the value decoder
  and `JsonStable.dfy` the proof that an object's text is self-delimiting; `JsonPrint.dfy` and `JsonParse.dfy` say exactly
  which texts are objects, with white space at every place the grammar allows; `JsonGrammar.dfy` compares
  the decoder's lexemes with the grammar of RFC 8259; `ArrayLayout.dfy` says which texts are accepted,
  `ArrayErrors.dfy` where and why every other text is rejected, `StrictArray.dfy` which of those are arrays by that grammar, and `JsonRoundTrip.dfy` closes the round trip.
* **Atomic config write.** `_write_config` as a protocol of file-system steps. Which of them succeed is a
  parameter that decides the outcome; each may be the last one before the process is killed, over any
  history of writes.
* **Concurrency.** The bounded map, the request set and the queue workers are transition systems with
  arbitrary interleaving. `TaskLifecycle.dfy` runs the queue phases and follows server-side tasks through
  a whole run.
* **Paths and the synthetic workload.** String code on paths, and on lists of paths (`Scopes.dfy`), against
  segment lists; mixed-radix paths
  against residues; the selectivity rule; the query set.
* **Recall injection.** Greedy packing of memory lines and the idempotent rewrite of the last message.
* **Counting and statistics.** Filter-scenario row counts, the window generator, percentiles, report rows.

Conventions. Loops and objects of the source are methods and classes here, proved against functions or
stated outright. I/O, clocks and the network are parameters or arbitrary choices: the size of each chunk
a file delivers, whether a file-system call succeeds, which task moves next, what a poll answers, and what
a memory read returns are all unconstrained. Real numbers are exact. `str.isalnum` is a parameter of which
only this is assumed: it accepts no slash, semicolon or space.

Results where the code does less than one might expect, each with its exact condition:

* A config write leaves a temporary file exactly when it made one, did not publish it and its `unlink`
  failed (`ConfigWrite.ConfigStore.WriteConfig`, with `ConfigWrite.LeftoverExample`).
* `run_request_set` with concurrency 0 and any request never finishes (`RequestSet.MaximalRunsGather`);
  the command line accepts positive levels only, so this concerns other callers.
  `map_bounded_as_completed` raises its bound to 1 and always finishes.
* Inside a polling round the pending list still names tasks that already have their event: registered
  tasks equal pending plus recorded ones there exactly as long as no poll of the round has ended a task,
  and again from the end of the round on (`TaskLifecycle.WithinRound`, `TaskLifecycle.StaleListExample`).
* The filter selectivity is respected for all row counts and query rows exactly when the path depth leaves
  room for the segments needed, if the fanout is at least 2, and when everything is asked for, if it is
  smaller (`Synthetic.SelectivityBoundIff`, with `Synthetic.DepthClampBreaksBound` and
  `Synthetic.FanoutOneBreaksBound`).
* Highest-score items match the scope derived from them unless all their path values are lists that begin
  with the same path, and then none does (`Scopes.DerivedScope`, with `Scopes.ListExample`).
* The windows of `unique_filter` repeat after `span` requests, or `span / 997` when 997 divides the span
  (`Windows.WindowsDifferIff`), and stick out of the rows exactly when there are fewer than ten
  (`Windows.WindowInside`).
* The uniform 10% and 1% scenarios select as many rows as the clustered and path ones exactly when the last
  thousand of rows is nearly empty or nearly full (`Buckets.FilterScenarios`, with `Buckets.FiftyRows`).
* The report's request total misses requests exactly when a scenario is called "ALL"
  (`SummaryRows.SummaryRows`, with `SummaryRows.MissedRequest`); the runner itself names none so.
* The reader accepts more than arrays of objects by RFC 8259: any `str.isspace` character around elements,
  where section 2 allows four, and NaN, Infinity and -Infinity, which section 3 excludes. An accepted text
  is an array by the grammar exactly when its one layout uses neither (`StrictArray.AcceptedIsStrictIff`,
  with `StrictArray.OtherSpaceAccepted` and `StrictArray.OtherWordAccepted`).

## Model

| member | source | states |
|---|---|---|
| `JsonStable.ValueStable` | benchmark/vectordb_perf/run.py:414-420 | A decoded value is decoded again, identically, from any text holding the same characters; a bare number also needs a next character that cannot continue it. So an object's text is prefix-free. |
| `JsonStable.MembersStable` | benchmark/vectordb_perf/run.py:414-420 | The same for the members of an object, whatever follows the closing brace. |
| `JsonStable.ElementsStable` | benchmark/vectordb_perf/run.py:414-420 | The same for the elements of a nested array. |
| `JsonStable.PartialDecode` | benchmark/vectordb_perf/run.py:414-425 | Decoding a partial buffer: an object is final in the whole text; any other value means the whole text has a non-object there too. |
| `JsonArrayReader.ArrayReader.Refill` | benchmark/vectordb_perf/run.py:354-363 | Appending a chunk of any size moves no unread character and uses up one of finitely many refills. |
| `JsonArrayReader.ArrayReader.Finish` | benchmark/vectordb_perf/run.py:391-398 | After the closing bracket the stream ends normally exactly when the rest of the text is space. |
| `JsonArrayReader.ArrayReader.Locate` | benchmark/vectordb_perf/run.py:365-374 | Finding the next character across refills changes nothing about what the whole-text parser would make of the rest. |
| `JsonArrayReader.ArrayReader.Turn` | benchmark/vectordb_perf/run.py:365-429 | One turn of the main loop keeps the outcome, or ends with it, and decreases a measure over input, buffer and end-of-file. |
| `JsonArrayReader.ArrayReader.Punctuation` | benchmark/vectordb_perf/run.py:376-412 | Brackets, commas and their errors move the stream as they move the whole-text parser. |
| `JsonArrayReader.ArrayReader.Element` | benchmark/vectordb_perf/run.py:414-429 | Decoding, retrying after a failed decode and rejecting non-objects agree with the whole-text parser. |
| `JsonArrayReader.ReadRecords` | benchmark/vectordb_perf/run.py:332-429 | For every text, limit and chunk size the reader terminates with exactly the objects and exactly the ending, error kind included, of the whole-text parser. |
| `JsonArrayLayout.LimitTakesPrefix` | benchmark/vectordb_perf/run.py:341-429 | A limit of n yields the first n objects of the unlimited reading and then stops normally; one that is not reached changes nothing. |
| `JsonArrayLayout.LayoutReads` | benchmark/vectordb_perf/run.py:332-429 | An array of object texts with any space around them reads back as its items. |
| `JsonArrayLayout.Recover` | benchmark/vectordb_perf/run.py:332-429 | A text that ends normally can be taken apart into such a layout of the yielded objects. |
| `JsonArrayLayout.ReadsExactlyLayouts` | benchmark/vectordb_perf/run.py:332-429 | The reader ends normally with items vs if and only if the text is a layout of vs. |
| `JsonArrayLayout.SameLayout` | benchmark/vectordb_perf/run.py:332-429 | A text has at most one layout. |
| `JsonArrayErrors.RejectsExactly` | benchmark/vectordb_perf/run.py:332-429 | A text is rejected with objects vs and an error kind if and only if it consists of space, those objects and their commas up to a stop whose next character, or missing character, means that error. |
| `JsonArrayErrors.StopReads` | benchmark/vectordb_perf/run.py:365-425 | Such a text yields exactly the objects before the stop and then that error. |
| `JsonArrayErrors.RecoverStop` | benchmark/vectordb_perf/run.py:365-425 | Every rejected text has such a stop. |
| `JsonPrint.PrintedValue` | benchmark/vectordb_perf/run.py:414-420 | A value written with any white space at any place the grammar allows is decoded to its tree wherever it stands. |
| `JsonPrint.PrintedObject` | benchmark/vectordb_perf/run.py:414-420 | Whatever the white space inside it, an object's text decodes to the object and is used up. |
| `JsonParse.ParsedValue` | benchmark/vectordb_perf/run.py:414-420 | Whatever the decoder takes is the text of its own tree with the white space it skipped. |
| `JsonParse.ObjectTexts` | benchmark/vectordb_perf/run.py:414-425 | A text decodes to an object and is used up if and only if it is one of that object's texts. |
| `JsonParse.DumpIsText` | openviking_cli/setup_wizard.py:1093-1094 | The layouts of `json.dumps`, on one line or with any indent, are texts of the dumped tree. |
| `JsonParse.DumpMemberAt` | openviking_cli/setup_wizard.py:1093-1094 | Member by member, where `json.dumps` puts its white space: behind each colon one space, behind each comma a space, or a new line and the indentation. |
| `JsonParse.DumpElementAt` | openviking_cli/setup_wizard.py:1093-1094 | The same for the elements of a list. |
| `JsonParse.ReadDumpRead` | benchmark/vectordb_perf/run.py:414-425 | A decoded object is well-formed, and dumping and decoding it gives it back. |
| `JsonRoundTrip.PrintedArrayReads` | benchmark/vectordb_perf/run.py:332-429 | For every list of objects and every white space inside and around them, the printed array reads back as the list; with `ReadRecords`, in any chunks. |
| `JsonRoundTrip.RenderedList` | benchmark/vectordb_perf/run.py:332-429 | The rendered layout of an array's elements is the array's text. |
| `JsonRoundTrip.DumpReads` | benchmark/vectordb_perf/run.py:332-429 | `json.dumps` of a list of objects, on one line or with any indent, reads back as the list. |
| `JsonRoundTrip.ReadDumpReadArray` | benchmark/vectordb_perf/run.py:332-429 | A text that ends normally yields exactly what `json.dumps` of its objects yields. |
| `JsonGrammar.StringsAgree` | benchmark/vectordb_perf/run.py:414-420 | The decoder's string bodies are exactly those of section 7 of RFC 8259. |
| `JsonGrammar.NumbersAgree` | benchmark/vectordb_perf/run.py:414-420 | The decoder's numbers are exactly those of section 6. |
| `JsonGrammar.WordsAgree` | benchmark/vectordb_perf/run.py:414-420 | The decoder's words are the three of section 3 and three more. |
| `JsonGrammar.GrammarIsStandard` | benchmark/vectordb_perf/run.py:414-420 | A text is one by the grammar if and only if the decoder takes it and it holds none of the other words. |
| `StrictArray.AcceptedIsStrictIff` | benchmark/vectordb_perf/run.py:332-429 | An accepted text is an array of objects by the grammar of RFC 8259, defined without the decoder, if and only if its one layout uses grammar white space and grammar words only. |
| `StrictArray.StrictIsAccepted` | benchmark/vectordb_perf/run.py:332-429 | Every array of objects by the grammar is accepted. |
| `StrictArray.OtherSpaceAccepted` | benchmark/vectordb_perf/run.py:368-369 | Any other `str.isspace` character in front of an empty array is accepted and outside the grammar. |
| `StrictArray.NoBreakSpaceAccepted` | benchmark/vectordb_perf/run.py:368-369 | The no-break space is one. |
| `StrictArray.OtherWordAccepted` | benchmark/vectordb_perf/run.py:414-425 | An object that holds NaN, Infinity or -Infinity is accepted and outside the grammar. |
| `ConfigWrite.SafeKeeps` | openviking_cli/setup_wizard.py:1069-1111 | Every state a write passes through keeps the history invariant: gap-free backups in chronological order that hold every earlier content. |
| `ConfigWrite.NothingLost` | openviking_cli/setup_wizard.py:1056-1111 | Under that invariant every content the config ever held is current or in some backup. |
| `ConfigWrite.ConfigStore.NextBackup` | openviking_cli/setup_wizard.py:1056-1066 | The search ends, at the least unused backup index if and only if no lookup up to it fails. |
| `ConfigWrite.ConfigStore.SecureBackup` | openviking_cli/setup_wizard.py:1069-1082 | The backup is made if and only if its four calls succeed; its temporary file stays if and only if it was made, not published and not unlinked; the directory is safe throughout. |
| `ConfigWrite.ConfigStore.Prepare` | openviking_cli/setup_wizard.py:1087-1097 | When the temporary file is made and when it holds the whole new content; nothing else changes. |
| `ConfigWrite.ConfigStore.Install` | openviking_cli/setup_wizard.py:1097-1104 | When the old config is backed up, when the new one is published, and what stays behind. |
| `ConfigWrite.ConfigStore.WriteConfig` | openviking_cli/setup_wizard.py:1085-1111 | At every recorded step the config is exactly the old or exactly the new content, the old one is in a new backup once the new one stands, and no other existing file changes. Call by call: True if and only if every call on the way succeeded, and then the new content stands; raised if and only if a temporary file was made, nothing was published, and its unlink failed or the value could not be serialized; and what stays behind. |
| `ConfigWrite.CallByCall` | openviking_cli/setup_wizard.py:1085-1111 | The ending of a write spelled out over the answers of its calls. |
| `ConfigWrite.ConfigStore.WriteWithoutFailure` | openviking_cli/setup_wizard.py:1085-1111 | When every call succeeds the write returns True, the new content stands, the old one is in the least unused backup, and the rest of the directory is as before. |
| `ConfigWrite.LeftoverExample` | openviking_cli/setup_wizard.py:1102-1111 | For any content and any backup index: when the last replace and the unlink fail and nothing else does, the old config is backed up, the write raises and its temporary file stays. |
| `ConfigWrite.ConfigStore.RunHistory` | openviking_cli/setup_wizard.py:1056-1111 | Over any sequence of writes that succeed, fail or are killed at a given step: each state is made of the one before safely and, when not killed, exactly as that write's calls decide; the history invariant holds in all of them and no backup is ever overwritten. |
| `BoundedMap.ReachableStates` | benchmark/vectordb_perf/async_utils.py:16-38 | In every reachable state free permits plus running calls equal max(1, concurrency), results are yielded in completion order, no item twice and each with its own result; an exception comes from the completion right behind those yielded; a finished map has no live task; an exhausted one has yielded every item. |
| `BoundedMap.NoDeadlock` | benchmark/vectordb_perf/async_utils.py:24-38 | Until the cleanup has finished, something can happen without the consumer leaving. |
| `BoundedMap.EveryRunEnds` | benchmark/vectordb_perf/async_utils.py:24-38 | Runs have bounded length, and one that cannot go on has finished its cleanup. |
| `BoundedMap.CleanRunYieldsAll` | benchmark/vectordb_perf/async_utils.py:24-38 | If no call raises and the consumer stays to the end, every item is yielded exactly once. |
| `BoundedMap.CanAlwaysLeave` | benchmark/vectordb_perf/async_utils.py:29-38 | From every consuming state the consumer can leave; then exactly the live tasks are cancelled and nothing more is yielded. |
| `RequestSet.ReachableStates` | benchmark/cuvs/run_service_concurrency_benchmark.py:164-192 | Permits are conserved, nothing runs before the start event, and the gathered outcomes are one per request, in request order, each the one that request recorded. |
| `RequestSet.NoDeadlock` | benchmark/cuvs/run_service_concurrency_benchmark.py:164-192 | With a permit to give, a state that is not gathered can move. |
| `RequestSet.ZeroPermitsNeverGather` | benchmark/cuvs/run_service_concurrency_benchmark.py:164-192 | With no permit, no reachable state is gathered. |
| `RequestSet.RunUsesWork` | benchmark/cuvs/run_service_concurrency_benchmark.py:168-192 | Every event uses exactly one unit of work, so runs are finite. |
| `RequestSet.MaximalRunsGather` | benchmark/cuvs/run_service_concurrency_benchmark.py:164-192 | A run that cannot go on has gathered if and only if the concurrency is positive or there is no request. |
| `QueuePhase.ReachableStates` | benchmark/custom/session_contention_benchmark.py:638-796 | For every interleaving each unit is queued, in flight or recorded exactly as often as it was queued at first; units are taken in order and every answer is recorded; at most max(1, workers) calls are in flight; a phase that is over has an empty queue and every unit recorded; a task is pending as often as before plus once for each recorded request that names it, field by field. |
| `QueuePhase.EveryRunEnds` | benchmark/custom/session_contention_benchmark.py:638-796 | Phases end: runs are bounded, and as long as a worker is left something can happen. |
| `QueuePhase.RegisteredCounts` | benchmark/custom/session_contention_benchmark.py:1056-1079 | The tasks a log registers are exactly those its successful answers name, with adapter, id, type, origin and resource, as often as they are named. |
| `TaskLifecycle.PhaseBalance` | benchmark/custom/session_contention_benchmark.py:638-796 | In every reachable state of a queue phase registered tasks are exactly the pending and the recorded ones. |
| `TaskLifecycle.RoundBalances` | benchmark/custom/session_contention_benchmark.py:1087-1113 | A polling round moves tasks from pending to events without losing or doubling any, in any company. |
| `TaskLifecycle.EndedCounts` | benchmark/custom/session_contention_benchmark.py:1101-1110 | A round's events for a task and a status are as many as its polls that answered so. |
| `TaskLifecycle.DrainedIs` | benchmark/custom/session_contention_benchmark.py:1081-1116 | A drain without time or tasks finalizes; any other polls round by round until nothing is pending or the rounds are over, and only the last drain then finalizes. |
| `TaskLifecycle.RunCounts` | benchmark/custom/session_contention_benchmark.py:587-612 | The tasks of a run are those its requests name, counted over its adapters and phases. |
| `TaskLifecycle.AdapterOrder` | benchmark/custom/session_contention_benchmark.py:587-612 | What a phase's drain records comes before anything of the next phase. |
| `TaskLifecycle.WithinRound` | benchmark/custom/session_contention_benchmark.py:1087-1111 | After i polls of a round, kept plus unpolled tasks are in balance; the stale pending list is in balance if and only if no poll so far ended a task. |
| `TaskLifecycle.StaleListExample` | benchmark/custom/session_contention_benchmark.py:1087-1111 | A concrete round in which a finished task is counted twice. |
| `TaskLifecycle.Runner.Register` | benchmark/custom/session_contention_benchmark.py:1056-1079 | A successful answer with an id, in a phase that registers, appends one task with the phase's adapter, type and scenario, the answer's id and the unit; any other leaves pending as it is; the balance is kept. |
| `TaskLifecycle.Runner.RunPhase` | benchmark/custom/session_contention_benchmark.py:638-696 | Stepping a queue phase to its end under any schedule keeps the balance at every step, records every unit once per queued copy and registers exactly the tasks the answers name. |
| `TaskLifecycle.Runner.PollRound` | benchmark/custom/session_contention_benchmark.py:1087-1111 | One round: a task is recorded with a status once for each successful poll of a known adapter that answered completed or failed; the others stay; the balance holds. |
| `TaskLifecycle.Runner.FinalizeIncomplete` | benchmark/custom/session_contention_benchmark.py:1118-1136 | Every pending task gets one "incomplete" event with its own fields, in order, and nothing stays pending. |
| `TaskLifecycle.Runner.DrainTasks` | benchmark/custom/session_contention_benchmark.py:1081-1116 | Pending tasks and events afterwards are exactly those of the rounds that fit before the deadline, followed by finalization where the source finalizes; the balance is kept. |
| `TaskLifecycle.Runner.RunAdapter` | benchmark/custom/session_contention_benchmark.py:587-612 | One adapter's finished phases, each drained, give exactly that ledger, keep the balance and register exactly the tasks their answers name. |
| `TaskLifecycle.Runner.RunAll` | benchmark/custom/session_contention_benchmark.py:458-468 | The events of a non-fatal run are exactly those of its polls and finalizations; at the end nothing is pending, and each task has, field by field, as many events as recorded requests of the three registering phases name it, each completed, failed or incomplete. |
| `Paths.NormalizeCanonical` | benchmark/vectordb_perf/run.py:479-493 | Canonical paths are fixed points of normalization. |
| `Paths.NormalizePadded` | benchmark/vectordb_perf/run.py:486-493 | Surrounding white space and trailing slashes do not matter. |
| `Paths.NormalizeRelative` | benchmark/vectordb_perf/run.py:491-493 | A missing leading slash is added, unless the first segment reads as the scheme. |
| `Paths.NormalizeSchemed` | benchmark/vectordb_perf/run.py:489-493 | A URI, with any slashes behind its scheme and at its end, becomes the path behind it. |
| `Paths.NormalizeListCanonical` | benchmark/vectordb_perf/run.py:480-483 | A list of canonical paths normalizes to the semicolon-joined list. |
| `Paths.PartsCanonical` | benchmark/vectordb_perf/run.py:582-583 | Canonical strings and segment lists correspond one to one. |
| `Paths.PathPrefixCanonical` | benchmark/vectordb_perf/run.py:564-569 | The path prefix is the path of the first segments, at least one and at most all. |
| `Paths.BelowIsPrefix` | benchmark/vectordb_perf/run.py:577-578 | The string test for "equal or below" is the segment-prefix order, both ways. |
| `Paths.MatchesIsPrefix` | benchmark/vectordb_perf/run.py:572-579 | On canonical paths matching is exactly the segment-prefix order. |
| `Paths.MatchesJoined` | benchmark/vectordb_perf/run.py:572-579 | A semicolon-joined value matches if and only if one of its paths does, even for a prefix that holds semicolons. |
| `Paths.MeetIsGreatest` | benchmark/vectordb_perf/run.py:586-598 | The common prefix is below all paths and above every other such prefix. |
| `Paths.MeetIgnoresOrder` | benchmark/vectordb_perf/run.py:586-598 | It depends only on which paths occur. |
| `Paths.CommonPathPrefix` | benchmark/vectordb_perf/run.py:586-598 | The shrinking loop with its early exit computes that greatest lower bound. |
| `Scopes.PartsOfValue` | benchmark/vectordb_perf/run.py:582-583 | The segments of a list's value are those of its paths run together, each path but the last ending in a semicolon. |
| `Scopes.DerivedScope` | benchmark/vectordb_perf/run.py:633-638 | The scope is the common prefix of the highest-score values; each of these items matches it if and only if the values are not all lists that begin with the same path; among single paths, every scope they all match is one it lies under. |
| `Scopes.ListMissesItsScope` | benchmark/vectordb_perf/run.py:633-638 | The value of a list never matches the scope derived from it alone. |
| `Scopes.ListExample` | benchmark/vectordb_perf/run.py:633-638 | So "/a;/b" misses its own scope. |
| `Scopes.DirectoryCase` | benchmark/vectordb_perf/run.py:970-978 | No case is built under the root; otherwise exactly the items whose path matches the scope are kept, and each highest-score item under the same condition as above. |
| `Paths.SafeSegmentGood` | benchmark/vectordb_perf/run.py:655-657 | Any value becomes one canonical path segment. |
| `Paths.SafeSegmentIs` | benchmark/vectordb_perf/run.py:655-657 | Character by character: letters, digits and `_-.` stay, everything else becomes `_`; nothing becomes "item". |
| `Paths.SafeSegmentKeeps` | benchmark/vectordb_perf/run.py:655-657 | A nonempty value of such characters is its own segment. |
| `Paths.UriText` | benchmark/vectordb_perf/run.py:660-668 | The text of a resource URI, with its root, dataset, path and item. |
| `Paths.UriShape` | benchmark/vectordb_perf/run.py:660-668 | A resource URI is the scheme and the joined root, dataset, path and item segments. |
| `Paths.NormalizeUri` | benchmark/vectordb_perf/run.py:489-490 | Normalizing a URI drops the scheme and leaves a canonical path. |
| `Paths.UriMatching` | benchmark/vectordb_perf/run.py:655-668 | An item's URI matches a scope's URI if and only if their datasets have the same segment, and the path matches the scope or the scope is the path plus the item's own segment. |
| `Synthetic.SyntheticPath` | benchmark/vectordb_perf/run.py:645-652 | The loop yields the path of the index's digits in base fanout, least significant first, tagged by level. |
| `Synthetic.SegmentAt` | benchmark/vectordb_perf/run.py:649-651 | Segment k of a row is its level and digit k of the row's index in base fanout. |
| `Decimal.ShowReads` | benchmark/vectordb_perf/run.py:650-650 | A numeral reads back as its number and has no leading zero. |
| `Synthetic.SharePrefix` | benchmark/vectordb_perf/run.py:645-652 | Two rows share their first s segments if and only if they agree modulo fanout^s. |
| `Synthetic.RowUnderPrefix` | benchmark/vectordb_perf/run.py:564-579 | Row i lies under the s-segment prefix of row j's path if and only if i and j agree modulo fanout^s. |
| `Synthetic.CountModExact` | benchmark/vectordb_perf/run.py:645-652 | The exact number of rows with a given residue. |
| `Synthetic.MatchingIsResidue` | benchmark/vectordb_perf/run.py:564-579 | The number of matching rows is the number of rows with the query row's residue. |
| `Synthetic.SelectedRows` | benchmark/vectordb_perf/run.py:564-579 | A filter selects the floor or the ceiling of rows / fanout^s. |
| `Synthetic.LeastPower` | benchmark/vectordb_perf/run.py:707-711 | The ceiling of the logarithm as the least exponent with fanout^e * selectivity >= 1. |
| `Synthetic.SelectivityBound` | benchmark/vectordb_perf/run.py:707-711 | When the depth does not clamp, or with a fanout below 2 when everything is asked for, at most ceil(rows * selectivity) rows are selected. |
| `Synthetic.OnePathSelectsAll` | benchmark/vectordb_perf/run.py:645-652 | With a fanout below 2 every filter selects every row. |
| `Synthetic.SelectivityBoundIff` | benchmark/vectordb_perf/run.py:707-711 | For every fanout and depth, the bound holds for all row counts and query rows if and only if that condition holds. |
| `Synthetic.FilterSegmentsLeast` | benchmark/vectordb_perf/run.py:707-711 | The number of segments is the least whose period is enough for the share, or all there are when none is. |
| `Synthetic.OneLessIsTooMany` | benchmark/vectordb_perf/run.py:707-711 | One segment less would exceed the share for some row count. |
| `Synthetic.StandardProfile` | benchmark/vectordb_perf/run.py:62-72 | The standard profile takes two segments and selects 156 or 157 of its 10000 rows. |
| `Synthetic.DepthClampBreaksBound` | benchmark/vectordb_perf/run.py:707-711 | A clamped example that selects ten times the share. |
| `Synthetic.FanoutOneBreaksBound` | benchmark/vectordb_perf/run.py:707-711 | A fanout-1 example that selects a hundred times the share. |
| `SyntheticWorkload.Rng.Vector` | benchmark/vectordb_perf/run.py:641-642 | A vector is the next dim draws of the stream. |
| `SyntheticWorkload.Records` | benchmark/vectordb_perf/run.py:723-737 | Record k has its id, the k-th block of draws and the URI of its synthetic path. |
| `SyntheticWorkload.Queries` | benchmark/vectordb_perf/run.py:739-754 | Query q has the block of draws, filter and id of the row it asks for. |
| `SyntheticWorkload.QueryIndexExact` | benchmark/vectordb_perf/run.py:741-744 | Query indices are in range: the remainder never bites. |
| `SyntheticWorkload.QueryIndicesDistinct` | benchmark/vectordb_perf/run.py:741-744 | Query indices are pairwise distinct. |
| `SyntheticWorkload.FilterSelects` | benchmark/vectordb_perf/run.py:748-754 | A record's URI passes a query's filter if and only if the rows agree modulo the filter's period. |
| `SyntheticWorkload.BuildSyntheticWorkload` | benchmark/vectordb_perf/run.py:714-761 | max(1, rows) records with vectors of max(4, dim) draws in their turn, and max(1, min(queries, rows)) queries that step through the rows; each query's vector is the one the record stream emits for its ground-truth id, exactly one record has that id and it passes the query's filter; ground truths are pairwise distinct. |
| `Windows.WindowInside` | benchmark/cuvs/run_service_concurrency_benchmark.py:212-221 | A window of the stated width lies inside the rows if and only if there are at least ten rows. |
| `Windows.WindowSizes` | benchmark/cuvs/run_service_concurrency_benchmark.py:213-214 | Width and number of starts for fewer than ten, fewer than a hundred, and more rows. |
| `Windows.NextStart` | benchmark/cuvs/run_service_concurrency_benchmark.py:215-215 | Starts begin at 0 and step by 997 modulo the number of starts; the salt shifts the requests. |
| `Windows.StepIsPrime` | benchmark/cuvs/run_service_concurrency_benchmark.py:215 | 997 has no factors but 1 and itself. |
| `Windows.CoprimeDivides` | benchmark/cuvs/run_service_concurrency_benchmark.py:215 | A span that 997 does not divide must divide the index difference of two equal windows. |
| `Windows.PeriodRepeats` | benchmark/cuvs/run_service_concurrency_benchmark.py:212-221 | After one period the first window comes back. |
| `Windows.WindowsDifferIff` | benchmark/cuvs/run_service_concurrency_benchmark.py:212-221 | The windows of a run are pairwise different if and only if the run is no longer than span, or span / 997 when 997 divides it. |
| `Windows.DifferentWindows` | benchmark/cuvs/run_service_concurrency_benchmark.py:212-221 | The same in numbers, from a hundred rows on. |
| `Buckets.ClusteredCount` | benchmark/cuvs/run_collection_benchmark.py:120-123 | For 1 <= b <= 999 exactly ceil(b * rows / 1000) rows have a cluster bucket below b. |
| `Buckets.UniformCount` | benchmark/cuvs/run_collection_benchmark.py:120-123 | The exact number of rows with a uniform bucket below b, for every b up to 1000. |
| `Buckets.PathFilterIs` | benchmark/cuvs/run_collection_benchmark.py:126-141 | The three path filters select exactly the rows divisible by 10, 100 and 1000. |
| `Buckets.PathFilterIsBucketZero` | benchmark/cuvs/run_collection_benchmark.py:126-141 | The 0.1% path filter selects exactly the rows with uniform bucket 0. |
| `Buckets.UrisDiffer` | benchmark/cuvs/run_collection_benchmark.py:137-140 | Different rows have different URIs. |
| `Buckets.FilterScenarios` | benchmark/cuvs/run_collection_benchmark.py:66-103 | Exact counts of the 10%, 1% and 0.1% scenarios: path and clustered ones agree, and the uniform one agrees if and only if rows mod 1000 is at most 1 or above 1000 minus the filter's step. |
| `Buckets.FiftyRows` | benchmark/cuvs/run_collection_benchmark.py:66-103 | With 50 rows the 10% scenarios select 50, 5 and 5. |
| `Buckets.TenthPercentScenarios` | benchmark/cuvs/run_collection_benchmark.py:66-117 | The three 0.1% scenarios and the prebuild filter all select ceil(rows / 1000) rows, the count the prebuild scenario compares with its threshold. |
| `Recall.BuildMemoryLines` | examples/openclaw-plugin/auto-recall.ts:155-166 | One formatted line per memory, in order. |
| `Recall.ContentChoice` | examples/openclaw-plugin/auto-recall.ts:129-153 | Which text a memory is shown as: preferred summary, readable full text, summary, URI. |
| `Recall.TrimIs` | examples/openclaw-plugin/auto-recall.ts:136-136 | Trimming removes exactly the white space at both ends. |
| `Recall.LineRecovered` | examples/openclaw-plugin/auto-recall.ts:112-127 | A line names its category, and its URI and content can be read back from it. |
| `Recall.PickedIff` | examples/openclaw-plugin/auto-recall.ts:190-209 | A line is kept if and only if it fits behind the lines kept before it. |
| `Recall.KeptFits` | examples/openclaw-plugin/auto-recall.ts:180-212 | The newline-joined length of the kept lines never exceeds a nonnegative budget. |
| `Recall.KeptIsMaximal` | examples/openclaw-plugin/auto-recall.ts:180-212 | No omitted line could still be appended within the budget. |
| `Recall.KeptAll` | examples/openclaw-plugin/auto-recall.ts:180-212 | When all lines fit, nothing is omitted. |
| `Recall.KeptStops` | examples/openclaw-plugin/auto-recall.ts:190-193 | Leaving the loop once the budget is reached loses nothing. |
| `Recall.BuildMemoryLinesWithBudget` | examples/openclaw-plugin/auto-recall.ts:180-212 | The loop yields the first-fit subsequence of the unbudgeted lines, with its token total, within the budget; the character limit wins over the token limit, and with neither nothing is kept. |
| `RecallInjection.RecallBlockMarked` | examples/openclaw-plugin/auto-recall.ts:214-222 | Every recall block carries the marker. |
| `RecallInjection.BlockShape` | examples/openclaw-plugin/auto-recall.ts:214-222 | A block is its three opening lines, the memory lines joined by newlines, and the closing tag. |
| `RecallInjection.BlockLines` | examples/openclaw-plugin/auto-recall.ts:214-222 | Taken apart at newlines it is exactly those lines, the memory lines in order. |
| `RecallInjection.ExtractShapes` | examples/openclaw-plugin/context-engine.ts:150-174 | The text of string, empty and other contents. |
| `RecallInjection.ExtractFirst` | examples/openclaw-plugin/context-engine.ts:150-174 | The text of a list, one block at a time. |
| `RecallInjection.PrependKeeps` | examples/openclaw-plugin/context-engine.ts:180-204 | Prepending to a list changes at most its first text block; all other blocks stay, in order. |
| `RecallInjection.PrependedText` | examples/openclaw-plugin/context-engine.ts:180-204 | After prepending, a string or list content says the block, a separator and what it said before. |
| `RecallInjection.PrependMarks` | examples/openclaw-plugin/context-engine.ts:176-204 | After prepending, the marker is found whatever the content's shape. |
| `RecallInjection.InjectIdempotent` | examples/openclaw-plugin/context-engine.ts:206-220 | Injecting again, with any block, changes nothing. |
| `RecallInjection.InjectChangesIff` | examples/openclaw-plugin/context-engine.ts:206-220 | Messages change if and only if the last one is an unmarked user message. |
| `RecallInjection.InjectPreserves` | examples/openclaw-plugin/context-engine.ts:206-220 | Earlier messages, role and other fields stay, and the original text survives as a suffix of a string or list content. |
| `RecallInjection.InjectedFirst` | examples/openclaw-plugin/context-engine.ts:206-220 | After injection the last message's text begins with the block. |
| `RecallPrompt.InjectRecall` | examples/openclaw-plugin/auto-recall.ts:481-510 | From memories to prompt: without a kept line, or without an unmarked user message, nothing changes; otherwise the last message's text begins with a block that holds every kept line in order, and earlier messages stay. |
| `Percentile.SortedUnique` | benchmark/custom/session_contention_benchmark.py:1398 | A multiset has one sorted arrangement. |
| `Percentile.PercentilesAgree` | benchmark/cuvs/run_index_benchmark.py:74-84 | The two percentile functions agree on every nonempty input, pct against pct / 100. |
| `Percentile.PercentileFormula` | benchmark/custom/session_contention_benchmark.py:1403-1409 | Between two neighbours of the ordered values, the percentile is on the straight line from one to the other, at pct * (n - 1) / 100 steps. |
| `Percentile.PercentileAtStep` | benchmark/custom/session_contention_benchmark.py:1399-1407 | At a whole step it is the value there; a single value is all its percentiles. |
| `Percentile.NoValues` | benchmark/custom/session_contention_benchmark.py:1399-1400 | Of no values one function gives nothing and the other 0. |
| `Percentile.PermutationInvariant` | benchmark/custom/session_contention_benchmark.py:1397-1409 | The order of the values does not matter. |
| `Percentile.PercentileMonotone` | benchmark/custom/session_contention_benchmark.py:1397-1409 | Percentiles grow with the rank and lie between some value and the maximum. |
| `Percentile.RowOrdered` | benchmark/custom/session_contention_benchmark.py:1463-1467 | p50 <= p90 <= p95 <= p99 <= max in each row. |
| `SummaryRows.GroupBy` | benchmark/custom/session_contention_benchmark.py:1418-1420 | The loop yields the grouping in order of first arrival. |
| `SummaryRows.GroupsExact` | benchmark/custom/session_contention_benchmark.py:1418-1420 | One group per key that occurs, and no other. |
| `SummaryRows.LookupExact` | benchmark/custom/session_contention_benchmark.py:1418-1420 | A key's group holds exactly the events of that key, in arrival order. |
| `SummaryRows.GroupsConserve` | benchmark/custom/session_contention_benchmark.py:1418-1420 | Whatever is counted per event, the groups count it exactly once. |
| `SummaryRows.ScenarioRows` | benchmark/custom/session_contention_benchmark.py:1418-1426 | One row for each adapter, scenario and operation that occur; each counts exactly the events that show its columns; requests and failures add up to the totals. |
| `SummaryRows.OverallRows` | benchmark/custom/session_contention_benchmark.py:1427-1431 | The same for the "ALL" rows. |
| `SummaryRows.SummaryRows` | benchmark/custom/session_contention_benchmark.py:1412-1432 | Scenario rows, then "ALL" rows, each exact and one per key; the totals the report prints (lines 1605-1606), and that the request total is complete if and only if no scenario is called "ALL". |
| `SummaryRows.ReportTotalIff` | benchmark/custom/session_contention_benchmark.py:1605-1606 | Events outside "ALL" scenarios are all events if and only if no scenario is called "ALL". |
| `SummaryRows.MissedRequest` | benchmark/custom/session_contention_benchmark.py:1605-1606 | One request of a scenario called "ALL" is missing from the total. |
| `SummaryRows.InsideWindow` | benchmark/custom/session_contention_benchmark.py:1480 | A request starts inside the bounds of the window it is counted in. |
| `SummaryRows.WindowRows` | benchmark/custom/session_contention_benchmark.py:1475-1506 | One row for each window and key that occur; each counts exactly the events that start in its window and show its columns; together every request and failure once. |
| `SummaryRows.ErrorRows` | benchmark/custom/session_contention_benchmark.py:1552-1575 | One row for each key of a failing request; each counts exactly the failing events with its columns, the error being exception, else message, else "unknown"; the counts add up to the failures. |

## Left out

- JSON: string escapes are scanned but not decoded, members stay a list (no folding into a dictionary with the last key winning), numbers stay lexemes; recursion and integer-digit limits, UTF-8 decoding and error texts are not modelled.
- Paths: the lemmas are about canonical paths ("/"-rooted, nonempty segments without "/" or ";" and without white space at their edges); elsewhere normalization is not idempotent ("//" becomes the empty string). Path values are single canonical paths or nonempty lists of them.
- Paths: `normalize_path` on values that are neither strings nor lists answers "/" and is not modelled.
- ConfigWrite.ConfigStore.WriteConfig: a False result does not mean that the config is unchanged, because the last chmod comes after the replace; file modes and directory creation appear only as steps that may fail.
- ConfigWrite: one writer at a time; temporary names are unused; a crash loses no completed step (fsync is taken at its word).
- BoundedMap: cancellation is taken to end a task; a call that suppresses its cancellation and runs on is outside the model.
- QueuePhase: workers that run until a stop event (warm-up, retrieval and the mixed scenario) are not transition systems here; the tasks the mixed scenario registers enter the run through `TaskLifecycle`.
- TaskLifecycle: fatal runs, durations, timestamps and task payloads.
- Synthetic: logarithms are replaced by the least exponent they approximate, so an answer that floating-point rounding pushes off by one is not captured.
- SyntheticWorkload: the seeded generator is a fixed stream of draws; record fields other than id, vector and URI.
- Buckets: database filters are read as their field comparisons and the path filter as `path_matches`; a collection has at least one row; names and labels of the scenarios are not modelled.
- Recall: text is a sequence of Unicode characters measured in UTF-16 units, so lone surrogates are not represented; scoring, ranking and querying before the lines are built; the trace's list of selected memories, which can differ from what is injected once a memory was skipped.
- Percentile: floating-point rounding, and the rounding of row figures.
- SummaryRows: the order of rows (the source sorts them), latencies, rates and status counts; window lengths are positive.
- Task summary and adapter comparison rows would add only further uses of the same grouping lemmas.
- The rest of `setup_wizard.py`, `doctor.py`, the engine bindings, the skill benchmark and report rendering: user interface, processes, network and text output.
