# A verified model of the gateway's stateful algorithms

The gateway routes AI requests between clients, providers and internal services. Most of it is
plumbing; this project models the parts that are algorithms with state, and proves what they do
over every input, every run or every interleaving. Check everything with
`dafny verify dfyconfig.toml` (Dafny 4.11).

| file | models | main results |
|---|---|---|
| `Text.dfy` | the Go string operations used below, on ASCII text | splitting a concatenation |
| `CommandLexer.dfy`, `CommandFilter.dfy` | `rtk/filter_engine.go` | tokens survive printing; rewriting keeps tokens, and settles except for `go build` |
| `Calendar.dfy`, `Budget.dfy`, `BudgetRuns.dfy`, `BudgetGate.dfy` | `internal/billing/budget.go` | conservation, usage as the records of the window, when daily totals stay within longer ones, bounded overshoot, exact alerts |
| `Int64.dfy`, `Benchmark.dfy` | `internal/benchmark/benchmark.go` | quicksort, order statistics, when the variance is right |
| `EventBus.dfy` | `internal/eventbus/bus.go` | exactly when delivery through the topic index is a scan |
| `EventId.dfy` | `internal/eventbus/id.go` | round trip, sorting, no random byte used twice |
| `DeadLetterQueue.dfy` | `internal/eventbus/nats_bus.go`, `internal/eventbus/types.go` | entries conserved, bounded attempts, backoff |
| `ChannelBreaker.dfy` | `internal/channel/router.go` | state as a function of history, for every interleaving; fair selection |
| `ProviderBreaker.dfy` | `internal/provider/health.go` | exactly when it opens and recovers |
| `WeightedPick.dfy` | the weighted pickers of both routers | exact proportionality |
| `Orchestrator.dfy` | `internal/orchestration/orchestrator.go` | exactly which steps run; topological order |
| `Dedup.dfy` | `internal/compression/dedup.go` | the two-level cache is one set; byte accounting |
| `Luhn.dfy` | `internal/privacy/detector.go` | error detection of the check digit |
| `Indexer.dfy` | `internal/memory/fts5.go` | nothing lost or repeated, for every interleaving |
| `RouteTable.dfy` | `internal/gateway/router.go` | longest-prefix match, independent of history |

An object of the source is a class here, and its methods are proved against functions or relations
on the value its `View()` gives; the theorems about whole runs are about those functions. Clocks,
random draws, the executor of a chain, broker outcomes and the order in which Go iterates a map are
parameters.

## Where the code does not do what one expects

Each of these is kept as the code has it, with the exact condition proved.

- `git push` is rebuilt from its first two tokens, so every further argument is lost. Tokens are
  kept exactly for a bare `git push` (`RewriteKeepsTokens`, example `PushDropsArguments`).
- `go build` asks for another `-v` after each rewrite, for ever, unless a flag starts with `-vv`
  (`RewriteSettles`, `GoBuildNeverSettles`, example `GoBuildExample`).
- A window ends only when a record comes strictly after its end. A record exactly at the end of a
  week or month that starts a new day, a seam record, is counted in the old week but the new day
  (`UsageIsWindowTotalIff`). The next record that day starts the new week and leaves the day above
  the week by the seam record (`DayStaysAtMostIff`, `SeamRecordIsLost`, example `SeamExample`).
- Setting a limit checks no alert: a period already over the new threshold is not reported until its
  next record, and one now below it stays marked (`AlertsExactIff`, example `LateLimitExample`).
- The sums behind mean and variance wrap around at 64 bits: one latency of 3.04 s makes the variance
  negative (`MomentsRightIff`, `OverflowExample`).
- Subscribing an active id again leaves its old types in the topic index. Events of such a type
  keep arriving unless the new types include it or the wildcard, even after unsubscribing and
  subscribing again (`DeliveryIsScanIff`, example `DroppedTypeExample`).
- A subscription that matches an event in several ways receives it several times
  (`ExactMultiplicity`, example `TripleDeliveryExample`). A target agent does not restrict delivery, although the comment on the
  field suggests it; it only lists a subscription once more.
- The comment on the retry backoff says 1s, 2s, 4s; the first wait is 2s. From 63 retries on the
  shift overflows and there is no wait (`BackoffIff`).
- `encodeTimestamp` keeps 50 bits, so ids parse back to their time exactly in 0 <= ms < 2^50
  (`RoundTripIff`).
- Every step result of a chain carries the id of the chain's first step (`Chain.Execute`).
- A success while a channel is open clears its failures but leaves it open, and a half-open channel
  needs five failures to open again (`StateIsHistory`).

## Model

| member | source | states |
|---|---|---|
| `Text.SpaceCodes` | rtk/filter_engine.go:58-62 | the ASCII blanks are the six codes 9 to 13 and 32 |
| `Text.TrimSpaceDrops` | rtk/filter_engine.go:34-39 | trimming drops blanks at both ends and nothing else |
| `Text.TrimSpaceEmptyIff` | internal/compression/dedup.go:113-116 | nothing remains exactly of a text of blanks |
| `Text.LowerLetters` | internal/compression/dedup.go:119-119 | lower-casing changes the capital letters to the small ones, and nothing else |
| `Text.JoinSplit` | internal/compression/dedup.go:108-108 | joining undoes splitting |
| `Text.SplitParts` | internal/compression/dedup.go:108-108 | no part of a split text contains the separator |
| `CommandLexer.WordsAreSpelling` | rtk/filter_engine.go:42-103 | the words of a text are the only list of words the text spells: maximal runs separated by blanks |
| `CommandLexer.WordsAppend` | rtk/filter_engine.go:42-121 | a blank between two texts separates their words |
| `CommandLexer.TrimKeepsWords` | rtk/filter_engine.go:34-39 | trimming the input loses no word |
| `CommandLexer.Lexer.constructor` | rtk/filter_engine.go:34-39 | the lexer starts at the first character of the trimmed input |
| `CommandLexer.Lexer.SkipWhitespace` | rtk/filter_engine.go:58-62 | moves to the next character that is not a blank |
| `CommandLexer.Lexer.ScanFlag` | rtk/filter_engine.go:64-82 | a flag token runs to the end of the word, one or two dashes alike |
| `CommandLexer.Lexer.ScanToken` | rtk/filter_engine.go:84-103 | the word at the position, a command only at the very start |
| `CommandLexer.Lexer.NextToken` | rtk/filter_engine.go:42-56 | splits the first word off the rest and types it, or reports that only blanks are left |
| `CommandLexer.Lexer.Tokenize` | rtk/filter_engine.go:106-121 | returns all words from the current position on with their types; only a token at the very start is a command |
| `CommandLexer.TokenizeCommand` | rtk/filter_engine.go:34-121 | for every command string, lexing gives the words of the string itself; those that start with a dash are flags, and only the first of the others, at the very start, is a command |
| `CommandLexer.RoundTrip` | rtk/filter_engine.go:1050-1056 | tokenizing the joined tokens of any command gives back the same tokens with the same types |
| `CommandLexer.AppendedTokens` | rtk/filter_engine.go:298-300 | text appended after a blank adds its own words and changes no earlier token |
| `CommandFilter.HasFlagOfWords` | rtk/filter_engine.go:1041-1048 | a flag test depends on the words alone, not on positions or types |
| `CommandFilter.TableMatchesRules` | rtk/filter_engine.go:278-988 | the 21 rules append exactly what a table of additions, suppressing flags and conditions says |
| `CommandFilter.DispatchIsExact` | rtk/filter_engine.go:227-886 | a subcommand is sent to the rule of that tool and name, and to no other |
| `CommandFilter.CommandGetsItsRule` | rtk/filter_engine.go:227-988 | a command whose first two words name a tool and subcommand, in any case, is suggested for exactly if some item of that rule applies, and then the suggestion is the kept words and the words of those items, single-spaced |
| `CommandFilter.OtherCommandsAreLeft` | rtk/filter_engine.go:227-886 | a command that names no rule of the tool is reported as it is |
| `CommandFilter.NpmTestExample` | rtk/filter_engine.go:551-660 | `npm test` becomes `npm test --runInBand` |
| `CommandFilter.RuleSettles` | rtk/filter_engine.go:278-988 | appending what a rule asks for leaves it with nothing to ask for, for every rule but go build |
| `CommandFilter.OriginalIsKept` | rtk/filter_engine.go:278-308 | the reported original has the tokens of the command; without a suggestion the optimized command is the original |
| `CommandFilter.RewriteKeepsTokens` | rtk/filter_engine.go:278-337 | a rewritten command is the original tokens followed only by additions, if and only if the rule is not git push or the command has two tokens |
| `CommandFilter.RewriteSettles` | rtk/filter_engine.go:278-988 | a rewritten command matches the same rule and is suggested for again if and only if that rule is go build |
| `CommandFilter.GoBuildNeverSettles` | rtk/filter_engine.go:888-917 | after n rewrites a go build command has exactly n more `-v` and is still suggested for |
| `CommandFilter.GoBuildExample` | rtk/filter_engine.go:888-917 | the command `go build` itself |
| `CommandFilter.SuggestionIsDetected` | rtk/filter_engine.go:991-1028 | a suggested command is detected as a command of the same tool |
| `CommandFilter.FilterSettles` | rtk/filter_engine.go:991-1037 | the auto-detecting filter has nothing more to suggest for its own suggestion unless the rule is go build |
| `CommandFilter.FilterSuggestsIff` | rtk/filter_engine.go:991-1037 | the auto-detecting filter suggests for a command that names a rule exactly if its tool is enabled, a space follows the first word and some item applies; and then what that rule suggests |
| `CommandFilter.FilterLeavesOthers` | rtk/filter_engine.go:991-1037 | it suggests nothing for a command that names no rule |
| `CommandFilter.PushDropsArguments` | rtk/filter_engine.go:327-330 | `git push origin` is rewritten to a command without its remote |
| `Calendar.WindowContains` | internal/billing/budget.go:347-377 | every calendar window contains the time it is computed for and is made of whole days |
| `Calendar.WindowPartition` | internal/billing/budget.go:347-377 | windows of one period partition time |
| `Calendar.DayInsideWindow` | internal/billing/budget.go:347-377 | a day never crosses a week or month boundary |
| `Budget.OrganizationBudget.constructor` | internal/billing/budget.go:74-85 | a new budget is empty |
| `Budget.OrganizationBudget.SetLimit` | internal/billing/budget.go:88-104 | stores the limit and starts tracking the period if it was not tracked |
| `Budget.OrganizationBudget.ResetUsage` | internal/billing/budget.go:326-344 | starts a new window and clears the alert |
| `Budget.OrganizationBudget.CheckAlerts` | internal/billing/budget.go:380-406 | sends the alert when the threshold is reached and it was not sent before |
| `Budget.OrganizationBudget.RecordUsage` | internal/billing/budget.go:107-188 | charges the record to the current window of each of the three periods |
| `Budget.OrganizationBudget.RollOver` | internal/billing/budget.go:115-131 | opens a window where there is none or it has passed, and then clears the alert |
| `Budget.OrganizationBudget.AddRecord` | internal/billing/budget.go:135-180 | adds the record to the totals of the open window and to its model and key entries |
| `Budget.OrganizationBudget.CheckBudget` | internal/billing/budget.go:192-242 | for any iteration order: allowed exactly when no limited period is used up, then with the least amounts left; otherwise names a period that is |
| `Budget.CheckIsOrderIndependent` | internal/billing/budget.go:207-241 | verdict and, when allowed, remaining amounts do not depend on the iteration order |
| `BudgetRuns.RecordEffect` | internal/billing/budget.go:114-184 | a record charges the three calendar periods independently, and leaves limits and other periods alone |
| `BudgetRuns.AlertEffect` | internal/billing/budget.go:128-184 | after a record an alert stands exactly if it stood and its window was not passed, or its charged period has reached the threshold |
| `BudgetRuns.AlwaysBalanced` | internal/billing/budget.go:88-188 | in every reachable state each period's totals are the sums over its per-model and over its per-key entries, and total tokens are input plus output |
| `BudgetRuns.LimitsAreGated` | internal/billing/budget.go:88-104 | in every reachable state the limits are the latest set and each has a usage the gate checks |
| `BudgetRuns.UsageIsWindowTotalIff` | internal/billing/budget.go:107-188 | with a forward clock and no manual reset, throughout a run each period holds exactly the records made in the window of the latest record, in total and per model and key, if and only if no record arrives exactly at the end of the stored window |
| `BudgetRuns.UseKeepsMeaningIff` | internal/billing/budget.go:114-180 | the same for one record |
| `BudgetRuns.UsageIsWindowTotal` | internal/billing/budget.go:107-188 | so it holds when no record is made at midnight |
| `BudgetRuns.DailyNeverExceedsLonger` | internal/billing/budget.go:107-188 | without manual resets and seam records, for any clock: from the first record on the day lies inside the week and the month, and daily totals never exceed theirs |
| `BudgetRuns.DayStaysAtMostIff` | internal/billing/budget.go:114-180 | for any clock and without manual resets, the daily totals stay within the longer period's throughout a run, if and only if no record starts a new longer window while a day with records goes on |
| `BudgetRuns.RecordKeepsDayIff` | internal/billing/budget.go:114-180 | the same for one record |
| `BudgetRuns.CutsComeFromSeams` | internal/billing/budget.go:114-180 | such a record comes only after a seam record |
| `BudgetRuns.TotalsSafeIffNoSeams` | internal/billing/budget.go:107-188 | without seam records no next record at any time could bring the day above, and with one some next record could |
| `BudgetRuns.OrdinaryRunsNest` | internal/billing/budget.go:107-188 | with a forward clock, no manual reset and no record at midnight there are no seam records, daily totals never exceed the longer ones, and every window contains the latest record |
| `BudgetRuns.NestingBreaksOnlyAtSeam` | internal/billing/budget.go:114-131 | in any state, one record leaves the day inside the longer window if and only if it is no seam record |
| `BudgetRuns.SeamRecordIsLost` | internal/billing/budget.go:128-131 | after a day began at the end of a longer window, its next record leaves the longer period short of exactly the first |
| `BudgetRuns.SeamExample` | internal/billing/budget.go:128-131 | Friday noon, Sunday midnight, Sunday noon: the day counts two requests, the week one |
| `BudgetGate.OvershootIsBounded` | internal/billing/budget.go:192-242 | with at most k admitted requests in flight, no run brings a limited period to its limit plus k maximal requests, in tokens or dollars |
| `BudgetGate.AlertDueMeans` | internal/billing/budget.go:393-405 | the alert is due when usage reaches the threshold share of the dollar limit, or else of the token limit |
| `BudgetGate.AlertIsHistory` | internal/billing/budget.go:107-188 | in every reachable state an alert is marked as sent exactly if some record left the period at the threshold of the limit then in force, with no reset or rollover of the period since |
| `BudgetGate.AlertsExactIff` | internal/billing/budget.go:88-188 | throughout a run the used periods with a sent alert are those at their threshold, if and only if no limit change moves a used period over or off its threshold and no record brings one back below |
| `BudgetGate.AlertsAreExact` | internal/billing/budget.go:380-406 | so it holds when limits are set before use and records are not negative |
| `BudgetGate.LateLimitExample` | internal/billing/budget.go:88-104 | a limit set after the money is spent: the threshold is reached and no alert is sent |
| `Benchmark.ScanUp` | internal/benchmark/benchmark.go:221-223 | the unchecked scan stays in bounds and stops at the first element not below the pivot |
| `Benchmark.ScanDown` | internal/benchmark/benchmark.go:224-226 | the unchecked scan stays in bounds and stops at the last element not above the pivot |
| `Benchmark.Partition` | internal/benchmark/benchmark.go:217-232 | permutes the slice into elements at most, equal to, and at least the pivot, and makes progress |
| `Benchmark.QuickSort` | internal/benchmark/benchmark.go:212-240 | terminates with the slice sorted, a permutation of what it was, and nothing else moved |
| `Benchmark.SumByPermutation` | internal/benchmark/benchmark.go:85-90 | sums over the sorted samples are sums over the recorded ones |
| `Benchmark.AccumulateSums` | internal/benchmark/benchmark.go:85-90 | the 64-bit sums are the exact sums wrapped around |
| `Benchmark.BenchmarkMetrics.Record` | internal/benchmark/benchmark.go:54-65 | appends the latency and counts the outcome and the bytes |
| `Benchmark.BenchmarkMetrics.GetResult` | internal/benchmark/benchmark.go:68-116 | minimum, maximum and percentiles have the right rank among the recorded samples and are in order; no samples give the empty result |
| `Benchmark.MomentsRightIff` | internal/benchmark/benchmark.go:85-96 | the reported mean is the mean of the samples and the variance their mean squared distance to it, if and only if both sums fit in 64 bits |
| `Benchmark.VarianceWhenSumsFit` | internal/benchmark/benchmark.go:91-95 | then the variance is not negative |
| `Benchmark.NoOverflow` | internal/benchmark/benchmark.go:85-90 | n samples of size at most m do not overflow when n*m*m < 2^63 |
| `Benchmark.OverflowExample` | internal/benchmark/benchmark.go:85-96 | one latency of 3.04 s gives a negative variance |
| `Benchmark.EveryIterationOnce` | internal/benchmark/benchmark.go:164-176 | every iteration is run by exactly one worker |
| `EventBus.CheckFilter` | internal/eventbus/bus.go:262-298 | the filter loops decide source, priority and metadata as stated |
| `EventBus.FilterByParts` | internal/eventbus/bus.go:262-298 | a filter accepts an event exactly if its agents, its threshold and its metadata each do |
| `EventBus.FilterParts` | internal/eventbus/bus.go:262-298 | agents accept if empty or if one is the source; a positive threshold is a lower bound of the priority; metadata asked for must all be there |
| `EventBus.LocalEventBus.constructor` | internal/eventbus/bus.go:88-129 | a new bus has no subscription and only empty topics |
| `EventBus.LocalEventBus.Subscribe` | internal/eventbus/bus.go:322-368 | a valid subscription is stored as active and listed under exactly its types; an invalid one changes nothing |
| `EventBus.LocalEventBus.Unsubscribe` | internal/eventbus/bus.go:371-396 | a known id is unlisted from its types, loses its handler and becomes inactive |
| `EventBus.LocalEventBus.FindSubscribers` | internal/eventbus/bus.go:231-259 | each id is listed once per way it matches, whatever the iteration order |
| `EventBus.LocalEventBus.Publish` | internal/eventbus/bus.go:166-219 | an event goes to the listed ids with a handler, active, whose filter accepts it, as often as listed |
| `EventBus.ExactMultiplicity` | internal/eventbus/bus.go:231-259 | after any run, how often an id is listed for an event, from the operations alone; in a run that leaves no type behind, from the types of the subscription |
| `EventBus.TripleDeliveryExample` | internal/eventbus/bus.go:231-259 | a subscription to a type and the wildcard receives an event of that type for its agent three times |
| `EventBus.SubscribeDeliversScanIff` | internal/eventbus/bus.go:345-361 | a subscription keeps delivery equal to the scan, for every event, if and only if it names the wildcard or all types its id is still listed under |
| `EventBus.SubscribeKeepsIndexIff` | internal/eventbus/bus.go:345-354 | while the index is exact, that is: the id is unused or inactive, or the new types include the old, or the wildcard; only without the last does the index stay exact |
| `EventBus.IndexIsHistory` | internal/eventbus/bus.go:345-396 | after any run the index lists an id under a type exactly if some subscription named it and no unsubscription since, which takes back the latest types only, removed it |
| `EventBus.ScanIsDelivered` | internal/eventbus/bus.go:177-298 | after any run every active subscription that matches by type or wildcard and filter is reached; a bus without a handler delivers nothing |
| `EventBus.DeliveryIsScanIff` | internal/eventbus/bus.go:177-396 | throughout a run delivery reaches exactly the subscriptions a scan of the active ones finds, for every event, if and only if every subscription covered what its id was still listed under |
| `EventBus.DeliveryIsScan` | internal/eventbus/bus.go:177-298 | after any run that subscribes ids only while unused or inactive, or with all their old types, delivery with a handler is exactly the scan |
| `EventBus.SilentAfterUnsubscribe` | internal/eventbus/bus.go:371-396 | in any run, an unsubscribed id receives nothing until it is subscribed again, stale index entries included |
| `EventBus.DroppedTypeExample` | internal/eventbus/bus.go:345-391 | an id resubscribed from `a` to `b` still receives `a`, and again after unsubscribing and subscribing to `b` |
| `EventId.IndexBase32` | internal/eventbus/id.go:131-147 | the position of a character in the alphabet, in either case, or -1 |
| `EventId.IndexOfIff` | internal/eventbus/id.go:131-147 | exactly the characters of the alphabet and their small letters have a position |
| `EventId.AlphabetLetters` | internal/eventbus/id.go:16-16 | the alphabet is the Crockford one: digits, then letters without I, L, O and U |
| `EventId.EncodeTimestamp` | internal/eventbus/id.go:57-65 | ten Base32 digits, most significant first, for any integer |
| `EventId.ParseEventID` | internal/eventbus/id.go:110-128 | too short, bad character, or the value of the ten digits |
| `EventId.ParseEncoded` | internal/eventbus/id.go:57-147 | parsing an id that starts with an encoding, in either letter case, returns the time modulo 2^50 |
| `EventId.RoundTripIff` | internal/eventbus/id.go:57-128 | the time comes back exactly if and only if 0 <= ms < 2^50 |
| `EventId.EncodingOrderIff` | internal/eventbus/id.go:38-65 | for all integers, encodings compare lexicographically exactly as the times modulo 2^50 do; in range, as the times |
| `EventId.IdsSortByTime` | internal/eventbus/id.go:38-54 | whatever follows the timestamps, ids sort by time modulo 2^50 |
| `EventId.EntropySource.EncodeRandom` | internal/eventbus/id.go:68-88 | takes sixteen bytes from the pool, refilling it when short, none when the source fails |
| `EventId.BytesInOrder` | internal/eventbus/id.go:68-88 | the n-th id that gets random bytes gets exactly the n-th sixteen of the stream; a draw fails exactly when it needs new bytes and cannot read |
| `EventId.NoByteUsedTwice` | internal/eventbus/id.go:68-88 | over any run of draws and refills no random byte is used in two ids |
| `DeadLetterQueue.BackoffIff` | internal/eventbus/types.go:246-257 | the wait after the k-th retry is min(2^k, 300) seconds if and only if k <= 62, and none afterwards |
| `DeadLetterQueue.BackoffNeverDecreases` | internal/eventbus/types.go:251-255 | up to 62 retries the waits never decrease |
| `DeadLetterQueue.NatsQueue.SendToDLQ` | internal/eventbus/nats_bus.go:164-169 | queues a new entry |
| `DeadLetterQueue.NatsQueue.RetryDLQEntry` | internal/eventbus/nats_bus.go:396-427 | refuses unknown and exhausted entries and changes nothing; a published entry leaves the queue, and one that fails stays in it with its retry counted |
| `DeadLetterQueue.NatsQueue.PurgeDLQEntry` | internal/eventbus/nats_bus.go:430-441 | removes the entry if it is queued |
| `DeadLetterQueue.EntriesConserved` | internal/eventbus/nats_bus.go:164-441 | every entry ever sent is at all times in exactly one of queued, republished and purged |
| `DeadLetterQueue.LeftByHistory` | internal/eventbus/nats_bus.go:396-441 | an entry is republished exactly if some attempt was published, and purged exactly if a purge found it queued |
| `DeadLetterQueue.QueuedIff` | internal/eventbus/nats_bus.go:164-441 | an entry is queued exactly if it was sent and neither republished nor purged |
| `DeadLetterQueue.EntryIsHistory` | internal/eventbus/types.go:215-257 | a queued entry records how often it was attempted and, from the latest attempt, when it may be retried |
| `DeadLetterQueue.FailedRetryExample` | internal/eventbus/nats_bus.go:415-424 | after one failed retry the entry is still queued, for two seconds later |
| `DeadLetterQueue.AttemptsBounded` | internal/eventbus/nats_bus.go:396-427 | an entry is attempted at most MaxRetries times, and its counter says how often |
| `DeadLetterQueue.RefusedExactlyAtLimit` | internal/eventbus/nats_bus.go:405-407 | a retry is refused exactly when MaxRetries attempts were made |
| `ChannelBreaker.Router.RecordSuccess` | internal/channel/router.go:116-126 | clears the failures and closes a half-open channel |
| `ChannelBreaker.Router.RecordFailure` | internal/channel/router.go:129-142 | counts the failure, records its time, and opens the channel at five |
| `ChannelBreaker.Router.ResetCircuit` | internal/channel/router.go:152-160 | forgets everything about the channel |
| `ChannelBreaker.IsModelSupported` | internal/channel/channel.go:86-97 | a channel serves a model if it names none, or names that model or the wildcard at some place |
| `ChannelBreaker.Router.FilterEligible` | internal/channel/router.go:73-97 | the eligible channels are the supported ones that are not open or have cooled down; exactly the open ones among them become half-open |
| `ChannelBreaker.Router.SelectChannel` | internal/channel/router.go:61-113 | not found without channels, inactive without an eligible one, otherwise the eligible channel the draw picks |
| `ChannelBreaker.SelectedIsEligible` | internal/channel/router.go:61-113 | a channel is selected if and only if one is offered that serves the model and is not open with a last failure at most 30 seconds old, and the selected one is such |
| `ChannelBreaker.EligibleAppend` | internal/channel/router.go:73-97 | filtering goes channel by channel and keeps their order |
| `ChannelBreaker.EligibleSingle` | internal/channel/router.go:73-97 | a single channel passes the filter exactly if it serves the model and is not shut off |
| `ChannelBreaker.SelectionIsProportional` | internal/channel/router.go:73-191 | among several eligible channels each is selected by exactly as many of the draws as it weighs |
| `ChannelBreaker.CountIsFailuresSince` | internal/channel/router.go:74-160 | for every interleaving, the count is the failures since the last success, reset or half-open switch |
| `ChannelBreaker.StateIsHistory` | internal/channel/router.go:74-160 | for every interleaving, open and half-open are characterised by the history of the channel |
| `ChannelBreaker.StateFacts` | internal/channel/router.go:74-160 | for every interleaving, not open implies fewer than five failures, and open implies a recorded last failure |
| `ChannelBreaker.LastFailureIsLatest` | internal/channel/router.go:129-160 | the recorded time is that of the last failure since the last reset |
| `ChannelBreaker.SwitchWasObserved` | internal/channel/router.go:80-89 | a channel is switched only after a read that saw it open with its last failure over 30 seconds old |
| `ProviderBreaker.CircuitBreaker.Allow` | internal/provider/health.go:57-77 | allows unless open within the timeout; an allowed request of an open breaker starts a trial |
| `ProviderBreaker.CircuitBreaker.RecordSuccess` | internal/provider/health.go:80-96 | clears failures when closed; counts toward closing when half-open |
| `ProviderBreaker.CircuitBreaker.RecordFailure` | internal/provider/health.go:99-117 | counts toward opening when closed; reopens when half-open; always records the time |
| `ProviderBreaker.OpensExactlyAtThreshold` | internal/provider/health.go:99-111 | from closed, an event opens the breaker exactly if it completes failureThreshold failures in a row |
| `ProviderBreaker.CountersByState` | internal/provider/health.go:57-117 | what the counters hold outside the state they serve |
| `ProviderBreaker.HalfOpenIsTrial` | internal/provider/health.go:64-95 | half-open means an Allow over the timeout after the latest failure, no failure since, and the successes since counted |
| `ProviderBreaker.RecoveryNeedsTrial` | internal/provider/health.go:57-117 | from open to closed only through such an Allow followed by successThreshold successes with no failure between |
| `ProviderBreaker.TrialCloses` | internal/provider/health.go:64-95 | conversely, such a trial closes the breaker at its last success |
| `ProviderBreaker.ClosesIffTrial` | internal/provider/health.go:57-117 | an open breaker is closed at some later point if and only if such a trial took place |
| `WeightedPick.WeightedRandomSelect` | internal/channel/router.go:163-191 | the first channel for a single one or zero weight, otherwise the first whose cumulative weight exceeds the draw |
| `WeightedPick.SelectEndpoint` | internal/gateway/router.go:212-229 | the first endpoint whose cumulative weight exceeds the draw |
| `WeightedPick.ExactlyProportional` | internal/channel/router.go:179-190 | with non-negative weights and positive total, exactly ws[i] of the draws pick position i |
| `WeightedPick.ProportionalIffNonNegative` | internal/channel/router.go:168-190 | the shares are the weights if and only if no weight is negative |
| `WeightedPick.FallThroughUnreachable` | internal/gateway/router.go:219-228 | whatever the weights, a draw below the total picks a position of positive weight inside the loop |
| `Orchestrator.Chain.AddStep` | internal/orchestration/orchestrator.go:139-143 | appends the step |
| `Orchestrator.Chain.Execute` | internal/orchestration/orchestrator.go:146-210 | a pending chain runs once and ends completed or failed; its results are those of the steps that ran |
| `Orchestrator.RunSteps` | internal/orchestration/orchestrator.go:167-201 | considers all steps, or up to the first required one that cannot run or fails |
| `Orchestrator.RunsIffSatisfied` | internal/orchestration/orchestrator.go:168-281 | a step runs if and only if for each dependency the latest earlier step with that id that ran did so without error; with distinct ids, if all its dependencies ran earlier without error |
| `Orchestrator.ExecutedExactly` | internal/orchestration/orchestrator.go:168-201 | a step is executed if and only if it can run and no earlier required step failed to run without error |
| `Orchestrator.RanInOrder` | internal/orchestration/orchestrator.go:168-190 | steps run in list order, each at most once |
| `Orchestrator.SuccessIffRequiredRan` | internal/orchestration/orchestrator.go:168-210 | a run succeeds if and only if every required step ran without error |
| `Orchestrator.PathRunsBackwards` | internal/orchestration/orchestrator.go:168-281 | everything a step that runs depends on, directly or not, ran before it without error |
| `Orchestrator.CyclesNeverRun` | internal/orchestration/orchestrator.go:168-281 | no step on a dependency cycle runs |
| `Orchestrator.DownstreamNeverRuns` | internal/orchestration/orchestrator.go:168-281 | no step downstream of a failed or skipped one runs |
| `Dedup.CompressLines` | internal/compression/dedup.go:112-143 | the loop keeps, drops and counts each line as the specification says |
| `Dedup.DedupEngine.CompressWithSession` | internal/compression/dedup.go:99-157 | joins the kept lines, returns the bytes saved, updates only its own session |
| `Dedup.TwoLevelsAreOne` | internal/compression/dedup.go:122-141 | the two-level check keeps the same lines as one set of 50-byte prefixes |
| `Dedup.SameKeyIff` | internal/compression/dedup.go:119-134 | two lines count as the same exactly if, trimmed and lower-cased, they agree in the first 50 characters |
| `Dedup.BothKeptIff` | internal/compression/dedup.go:112-143 | a new session keeps two lines that are not blank exactly if they differ there |
| `Dedup.KeptAreFirsts` | internal/compression/dedup.go:112-143 | the lines the engine keeps are exactly the first of their kind, in order |
| `Dedup.TwoCallsAreOne` | internal/compression/dedup.go:99-157 | compressing a and then b is compressing both joined by a newline |
| `Dedup.RepeatKeepsNothing` | internal/compression/dedup.go:99-157 | repeating an input keeps nothing and changes no session |
| `Dedup.BytesConserved` | internal/compression/dedup.go:99-145 | saved, kept and blank bytes add up to the input and one newline, if and only if the input is not empty |
| `Luhn.ValidateLuhn` | internal/privacy/detector.go:191-223 | accepts exactly 13 to 19 digits whose weighted sum is a multiple of ten |
| `Luhn.AcceptedIff` | internal/privacy/detector.go:204-222 | the sum is, over every second place from the right, the digit sum of the double, and the digit itself elsewhere |
| `Luhn.DigitsOfText` | internal/privacy/detector.go:193-198 | a text of digits is read digit by digit |
| `Luhn.CardTextExample` | internal/privacy/detector.go:191-223 | 4111111111111111 is accepted and 5111111111111111 is not |
| `Luhn.OtherCharactersIgnored` | internal/privacy/detector.go:193-198 | other characters never affect the verdict |
| `Luhn.SingleErrorDetected` | internal/privacy/detector.go:204-222 | changing any one digit of an accepted number makes it rejected |
| `Luhn.TranspositionDetectedIff` | internal/privacy/detector.go:204-222 | swapping adjacent different digits goes unnoticed if and only if they are 0 and 9 |
| `Luhn.UniqueCheckDigit` | internal/privacy/detector.go:191-223 | each prefix of 12 to 18 digits has exactly one valid check digit |
| `Indexer.BackgroundIndexer.constructor` | internal/memory/fts5.go:384-399 | an empty indexer with a positive batch size |
| `Indexer.BackgroundIndexer.Add` | internal/memory/fts5.go:426-432 | queues the memory, or drops it when the queue is full |
| `Indexer.BackgroundIndexer.Close` | internal/memory/fts5.go:416-423 | closes the queue |
| `Indexer.BackgroundIndexer.ProcessBatch` | internal/memory/fts5.go:475-485 | hands every memory of the batch to the store, in order |
| `Indexer.BackgroundIndexer.OnReceive` | internal/memory/fts5.go:449-462 | moves one memory to the batch and processes a full batch; on a drained closed queue processes the rest and exits |
| `Indexer.BackgroundIndexer.OnTick` | internal/memory/fts5.go:464-469 | processes the batch |
| `Indexer.NothingLostOrRepeated` | internal/memory/fts5.go:416-490 | for every interleaving, processed, batch and queue are together the accepted memories in order, the batch stays below its size, and at exit all were processed exactly once |
| `Indexer.BatchIsHistory` | internal/memory/fts5.go:416-469 | for every interleaving the batch is what was received since the latest tick or full batch, so after a tick everything received is processed; the queue is closed exactly if there was a stop |
| `Indexer.TickExample` | internal/memory/fts5.go:464-469 | one memory, received and ticked, is processed |
| `Indexer.DrainsToExit` | internal/memory/fts5.go:447-469 | after a stop, whatever steps follow, the consumer has exited exactly when it has received once more than was queued, and until then it can always receive |
| `RouteTable.InternalRouter.RegisterRoute` | internal/gateway/router.go:110-133 | refuses an empty prefix or service; otherwise stores the route with defaults and a leading slash |
| `RouteTable.StoredMeans` | internal/gateway/router.go:110-133 | a missing leading slash, timeout (30 s) and retry count (1) are added, and nothing given is changed |
| `RouteTable.InternalRouter.UnregisterRoute` | internal/gateway/router.go:136-152 | removes a known prefix from the map and the order list |
| `RouteTable.InternalRouter.MatchRoute` | internal/gateway/router.go:155-181 | the route of the longest registered prefix and the rest of the path, or no route when none matches |
| `RouteTable.TableIsLatest` | internal/gateway/router.go:110-152 | after any run the order list and the map hold the same prefixes, each with its latest registration |
| `RouteTable.AlwaysCoherent` | internal/gateway/router.go:110-152 | matching may rely on the list and the map agreeing after any run |
| `RouteTable.MatchUnique` | internal/gateway/router.go:155-181 | a path has one match; prefix and remainder rebuild it unless the remainder was empty |
| `RouteTable.MatchIgnoresHistory` | internal/gateway/router.go:155-181 | histories with the same latest registrations match every path alike |

## Left out

- HTTP, SQL, the NATS and JetStream connections, metrics, tracing and configuration loading: I/O and wrappers over libraries.
- The regular-expression engines (compression patterns, guardrails, PII patterns other than the card check): their meaning lives in a library.
- Text beyond ASCII: Go's byte and rune views of a string differ there, in trimming, lower-casing, cutting at 50 bytes and parsing ids.
- `rtk/filter_engine.go`: optimization type names, savings and confidence figures, `DetectCommandType`, suggestion texts and the configuration parser are constant tables.
- Floating point: money, means and percentile positions are reals; the square root of the variance is not taken.
- 64-bit wrap-around of token counters in the budget; usage is assumed to stay below 2^63.
- Time zones, daylight saving and the Gregorian month lengths: days have a fixed length, and months are any partition of days into consecutive blocks.
- Budget getters, `GetUsagePercentages` and the unread `LastReset`, `CreatedAt` and `UpdatedAt` fields.
- Locking and goroutine scheduling, except the lock gap in `SelectChannel` and the steps of the indexer: each locked method is one step. Publishing is one step as well, so an unsubscription between listing and delivery is not modelled.
- Publishing's checks for missing and expired events, and its sequence numbers.
- Event ids given to subscriptions and dead letters when the caller gives none: they are parameters, and generated ids are assumed not to repeat.
- `encodeFallback` and the client id generators, whose uniqueness rests on the clock.
- The in-memory bus's own dead letter queue, whose retry drops the entry, and `EventSequencer`.
- The execution context of a chain, the text built from earlier outputs, timeouts and cancellation.
- `updateHealthStatus` and the health checks: running averages of HTTP results.
- `SelectWithFailover`, which never returns a channel; the channel repository, whose list of active channels is a parameter.
- Rewrite rules, retries and metrics of the internal router; the SHA-256 hashes of the dedup engine are taken to be injective.
