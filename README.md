# bom-extender, modelled in Dafny

bom-extender takes a KiCad bill of materials (BOM) as CSV. It keeps the lines
in a row store and looks each LCSC part number up through its own
`/api/lcsc` endpoint. That endpoint queries the JLCPCB component search.
Each line then gets the manufacturer, the stock and a unit price from the
part's quantity price tiers. Requests are paced by a small rate limiter, and
the enriched BOM is exported as CSV. This project models that core in Dafny
and proves what it promises.

| file | module | models |
|---|---|---|
| `utils.dfy` | `Utils` | Option/Result, first index, `[...new Set(xs)]` as order-keeping deduplication |
| `text.dfy` | `Text` | decimal digits, number-to-text, `join` |
| `types.dfy` | `BomTypes` | `src/lib/bom/types.ts`; the two part-number tests; error values |
| `bom_parser.dfy` | `BomParser` | `src/lib/bom/parser.ts` after tokenising |
| `bom_store.dfy` | `BomStore` | `src/hooks/useBomStore.ts`: the price resolver, and the store as a class over `seq<Row>` |
| `rate_limiter.dfy` | `RateLimiting` | `src/lib/lcsc/rate-limiter.ts` as a class whose methods are the limiter's synchronous events |
| `lcsc_api.dfy` | `LcscApi` | `src/lib/lcsc/api.ts`: error mapping and the `fetchMultipleParts` loop |
| `lcsc_fetch.dfy` | `LcscFetch` | `src/hooks/useLcscFetch.ts`: the fetch run, stop, retry and counts |
| `lcsc_route.dfy` | `LcscRoute` | `src/app/api/lcsc/route.ts`: price-tier parsing, the GET decision chain, normalisation |
| `exporter.dfy` | `BomExport` | `src/lib/bom/exporter.ts`: export rows, CSV escaping (section 2 of RFC 4180), CSV text, and a reader proving the text lossless |
| `export_filename.dfy` | `ExportFilename` | `getExportFilename` of `src/components/bom/BomExporter.tsx` |

Inputs the program gets from outside are parameters of the model:

- **Remote answers.** The fetch run's lookups are a function `respond` from part number to outcome. The client's HTTP answer is a `Response` value, and the endpoint's upstream answer is an `Upstream` value.
- **Stop.** Pressing stop is `stopDuring`, the index of the part being awaited when stop is pressed. The run sees the abort at the top of the next iteration.
- **Timing.** How the lookups' answers fall against the limiter's 500 ms delay is `elapsed(i)`: how many of the run's settled lookups have waited out their delay when lookup `i` joins the limiter.
- **Clock.** `Date.now()` is a `now: nat` parameter. The ISO timestamp used for the export name is an `isoNow` string parameter.
- **Number text.** `String(x)` for a non-integer number is a `render: real -> string` parameter.

In these places the code behaves differently from what its intent suggests, and the model follows the code:

- **Fetchable part numbers.** The store and row creation test `startsWith('C')`. The validator and the endpoint test `^C\d+$`. So a line `Cabc` starts out `pending` although validation rejects it (`PendingButInvalid`). Its lookup then always fails with the endpoint's format error (`ClientOverEndpoint`).
- **Retry fans out.** `retryErrors` sets the part number of each `error` row back to `pending` on every row that carries it. That includes a `success` row sharing the number (`RetryResetsSharedSuccess`).
- **Failures keep old data.** A failed lookup after an earlier success keeps the row's part record and prices. Only the status and message change.
- **Quantity edits.** A patch of the quantity alone does not recompute the prices.
- **Stop while a lookup is queued hangs the run.** `stopFetch` calls `clear`, which drops the queued task without settling its promise. If the lookup being awaited was still in the queue, the `await` never returns. Its row and every later row stay `loading`, the progress stays set, and the loop never reaches its revert (`StalledRunLeavesLoading`, `StallExample`). With the shared limiter's two slots, quick answers put the third lookup in the queue (`QuickAnswersQueueTheThird`). Answers slower than the delay never queue one (`SlowAnswersNeverStall`).
- **The "Failed to fetch" fallback is dead code.** Every failure that reaches `startFetch` went through the limiter, which turns any thrown value into an `Error` (`LookupFailureMessage`).

## Model

| member | source | states |
|---|---|---|
| Utils.Dedup | src/hooks/useBomStore.ts:126 | `[...new Set(xs)]`: no duplicates, and exactly the elements of the input |
| Utils.DedupFirstOccurrenceOrder | src/hooks/useBomStore.ts:126 | the deduplicated list keeps first-occurrence order |
| Utils.DedupOrdered | src/hooks/useBomStore.ts:126 | for every pair of positions at once: earlier in the result means first seen earlier in the input |
| Utils.DedupOfDistinct | src/hooks/useBomStore.ts:126 | a list without duplicates is returned unchanged |
| Text.DigitsValueOfNatToString | src/lib/bom/parser.ts:30 | reading back the decimal text of `n` gives `n` |
| Text.NatToStringInjective | src/lib/bom/parser.ts:38 | different numbers have different decimal texts |
| BomParser.ParseQuantityOfNatText | src/lib/bom/parser.ts:30 | a quantity column holding the decimal text of `n` parses to `n` |
| BomParser.ParseQuantityDefaultsToZero | src/lib/bom/parser.ts:30 | a missing, empty or blank quantity, or one whose first non-space character is not a sign or digit, gives 0 |
| BomParser.MapRecords | src/lib/bom/parser.ts:24-32 | every row kept has a designator or a comment; never more rows than records |
| BomParser.MapRecordsFromRecords | src/lib/bom/parser.ts:24-31 | every row kept is the mapping of some record |
| BomParser.MapRecordsAppend | src/lib/bom/parser.ts:24-32 | records are mapped and filtered independently and in order |
| BomParser.MapRecordsKeepsNonBlank | src/lib/bom/parser.ts:32 | every record with a designator or comment yields a row |
| BomParser.ParseBomCsv | src/lib/bom/parser.ts:19-32 | fails exactly when the tokenizer reported errors, with the first error's row and message; otherwise exactly the mapped and filtered records, each non-blank |
| BomParser.RowIdsDistinct | src/lib/bom/parser.ts:38 | ids `bom-<index>-<clock>` for different indices differ, whatever the clock read for each |
| BomParser.InitialStatus | src/lib/bom/parser.ts:39 | `pending` exactly when the part number starts with 'C', else `skipped` |
| BomParser.ConvertToExtended | src/lib/bom/parser.ts:35-41 | same length and order, original fields kept, initial status, nothing fetched yet; row `i` gets id `bom-<i>-<clock(i)>`; ids pairwise distinct |
| BomParser.PendingButInvalid | src/lib/bom/parser.ts:39 | `Cabc` starts `pending` but fails validation |
| BomParser.RowErrorsEmptyIff | src/lib/bom/parser.ts:43-57 | a row passes iff it has a designator, a positive quantity and an empty or well-formed part number |
| BomParser.ValidateBomRow | src/lib/bom/parser.ts:43-57 | each of the three messages is present iff its condition holds, in check order |
| BomParser.Prefixed | src/lib/bom/parser.ts:65 | each message is prefixed with `Row <index+1>: ` |
| BomParser.BomErrorsEmptyIff | src/lib/bom/parser.ts:59-73 | the BOM has no messages iff every row passes |
| BomParser.ValidateBom | src/lib/bom/parser.ts:59-73 | messages in row order then check order; `valid` iff every row passes |
| BomParser.PushPrefixed | src/lib/bom/parser.ts:64-66 | one row's messages are appended in their order, each with that row's one-based `Row n: ` prefix |
| BomParser.BomErrorsSnoc | src/lib/bom/parser.ts:62-67 | the messages of one more row come after those of the rows before it |
| BomStore.FindApplicablePrice | src/hooks/useBomStore.ts:27-36 | absent for no tiers; the first matching tier's price, or the first tier's price when none matches or the match is priced 0 |
| BomStore.ResolverExamples | src/hooks/useBomStore.ts:27-36 | in-band, open-ended, under-quantity and empty-list cases |
| BomStore.ZeroPriceTierFallsBack | src/hooks/useBomStore.ts:35 | a matching tier priced 0 yields the first tier's price |
| BomStore.ApplyInfoEffect | src/hooks/useBomStore.ts:79-93 | only rows with the part number change: info, `success`, no error, unit price from the row's own quantity, total = unit × quantity unless unit is absent or 0 |
| BomStore.WithInfoIdempotent | src/hooks/useBomStore.ts:81-90 | applying a record twice to a row equals applying it once |
| BomStore.ApplyInfoIdempotent | src/hooks/useBomStore.ts:79-93 | `setLcscInfo` twice with the same record equals once |
| BomStore.FanOutExample | src/hooks/useBomStore.ts:79-93 | two rows sharing a part number are priced from their own quantities |
| BomStore.ApplyStatusEffect | src/hooks/useBomStore.ts:95-106 | only rows with the part number change; status set; message replaced only by a non-empty one |
| BomStore.UpdateRowsEffect | src/hooks/useBomStore.ts:52-67 | only the first row with the id changes, or nothing; it becomes the assignment of the patch, and a patch with `lcsc` then resets status from the new number and clears info, prices and error |
| BomStore.AssignFields | src/hooks/useBomStore.ts:56 | `Object.assign`: each key the patch carries replaces that field; every other field is kept |
| BomStore.AssignLaws | src/hooks/useBomStore.ts:56 | an empty patch changes nothing; assigning the same patch twice equals once |
| BomStore.QuantityPatchKeepsPrices | src/hooks/useBomStore.ts:56 | a quantity-only patch leaves the prices as they were |
| BomStore.DeleteFirstEffect | src/hooks/useBomStore.ts:70-77 | removes only the first row with the id, the others in order, or nothing |
| BomStore.FetchableLcscs | src/hooks/useBomStore.ts:123-125 | exactly the rows' part numbers that start with 'C' |
| BomStore.FetchableLcscsAppend | src/hooks/useBomStore.ts:123-125 | `map` then `filter` works row by row: a concatenation gives the concatenation, so row order is kept |
| BomStore.PendingRowsAppend | src/hooks/useBomStore.ts:131 | the `pending` filter keeps row order across a concatenation |
| BomStore.PendingLcscs | src/hooks/useBomStore.ts:130-133 | only part numbers starting with 'C' of `pending` rows, and each of them |
| BomStore.PendingRows | src/hooks/useBomStore.ts:131 | exactly the `pending` rows |
| BomStore.SumTotalsAppend | src/hooks/useBomStore.ts:137-139 | the total of a concatenation is the sum of the totals |
| BomStore.SumTotalsOfUnpriced | src/hooks/useBomStore.ts:138 | rows without a total add nothing |
| BomStore.DeleteFirstTotal | src/hooks/useBomStore.ts:70-77 | deleting a row lowers the total cost by that row's contribution |
| BomStore.SumTotalsSplit | src/hooks/useBomStore.ts:137-139 | the total is the rows before a position, that row's contribution and the rows after it |
| BomStore.FirstWithIdIs | src/hooks/useBomStore.ts:72 | the row found for an id is the first row carrying it |
| BomStore.ConvertToExtendedConsistent | src/lib/bom/parser.ts:35-41 | a loaded BOM is skipped exactly for unfetchable lines, and its ids are distinct |
| BomStore.FanOutKeepsInvariants | src/hooks/useBomStore.ts:79-106 | fan-out keyed by a fetchable number keeps both invariants |
| BomStore.UpdateKeepsSkipRule | src/hooks/useBomStore.ts:52-67 | `updateRow` keeps the skip rule unless the patch forces a status without a part number |
| BomStore.DeleteKeepsInvariants | src/hooks/useBomStore.ts:70-77 | `deleteRow` keeps both invariants |
| BomStore.Store.constructor | src/hooks/useBomStore.ts:40-42 | no rows, no file name, no progress |
| BomStore.Store.SetRows | src/hooks/useBomStore.ts:44-50 | rows from `convertToExtended`; a missing or empty name stored as absent; progress reset |
| BomStore.Store.UpdateRow | src/hooks/useBomStore.ts:52-67 | rows become `UpdateRows` of the old rows; nothing else changes |
| BomStore.Store.DeleteRow | src/hooks/useBomStore.ts:70-77 | rows become `DeleteFirst` of the old rows; nothing else changes |
| BomStore.Store.SetLcscInfo | src/hooks/useBomStore.ts:79-93 | the loop leaves rows equal to `ApplyInfo` of the old rows |
| BomStore.Store.SetFetchStatus | src/hooks/useBomStore.ts:95-106 | the loop leaves rows equal to `ApplyStatus` of the old rows |
| BomStore.Store.SetFetchProgress | src/hooks/useBomStore.ts:108-112 | only the progress changes |
| BomStore.Store.ClearAll | src/hooks/useBomStore.ts:114-120 | no rows, no file name, no progress |
| BomStore.Store.UniquePartNumbers | src/hooks/useBomStore.ts:122-127 | no duplicates; exactly the rows' part numbers that start with 'C'; in the order of their first occurrence among the rows |
| BomStore.Store.PendingPartNumbers | src/hooks/useBomStore.ts:129-135 | no duplicates; exactly the part numbers starting with 'C' of `pending` rows; in the order of their first occurrence among those rows |
| RateLimiting.Forward | src/lib/lcsc/rate-limiter.ts:40-44 | a value resolves unchanged, an `Error` rejects unchanged, any other thrown value becomes `Error(String(e))` |
| RateLimiting.RateLimiter.constructor | src/lib/lcsc/rate-limiter.ts:15-18 | defaults 2 and 500; empty queue, nothing running |
| RateLimiting.RateLimiter.ProcessQueue | src/lib/lcsc/rate-limiter.ts:31-37 | admits the head of the queue iff a slot is free and the queue is non-empty, at most one task; the slot count stays within the cap |
| RateLimiting.RateLimiter.Add | src/lib/lcsc/rate-limiter.ts:20-29 | the task joins the tail; it starts at once iff a slot was free |
| RateLimiting.RateLimiter.Settle | src/lib/lcsc/rate-limiter.ts:39-44 | the caller gets the forwarded outcome; the slot stays taken |
| RateLimiting.RateLimiter.Release | src/lib/lcsc/rate-limiter.ts:46-48 | after the delay the slot is freed and the oldest waiting task, if any, is admitted |
| RateLimiting.RateLimiter.Clear | src/lib/lcsc/rate-limiter.ts:55-57 | the queue is emptied and its tasks are dropped, never to settle; the running count, the running tasks and the ticket counter are untouched |
| RateLimiting.ClearDropsWaitingTask | src/lib/lcsc/rate-limiter.ts:55-57 | with the default cap, the third of three tasks waits, `clear` drops it, and a freed slot then admits nothing |
| RateLimiting.DefaultCapScenario | src/lib/lcsc/rate-limiter.ts:15-48 | with the defaults, of five tasks two start, three wait, and a freed slot admits the third |
| LcscApi.HttpErrorMessage | src/lib/lcsc/api.ts:18-23 | the body's `error`, else `HTTP <status>`; `Unknown error` for an unreadable body; never empty |
| LcscApi.PartTask | src/lib/lcsc/api.ts:15-27 | succeeds iff a part record came back; a non-2xx answer throws `LcscApiError` with that status |
| LcscApi.Delivered | src/lib/lcsc/api.ts:14-15 | an `await` on the limiter's promise yields the record iff it resolved, and throws the rejecting `Error` otherwise |
| LcscApi.FetchLcscPartOutcome | src/lib/lcsc/api.ts:14-28 | through the limiter: fetched iff a record came back; failures are always `Error`s; a non-2xx answer carries its status and a non-empty message |
| LcscApi.UniqueParts | src/lib/lcsc/api.ts:52 | no duplicates; exactly the inputs starting with 'C'; in the order of their first occurrence |
| LcscApi.Filter | src/lib/lcsc/api.ts:52 | exactly the inputs starting with 'C' |
| LcscApi.FilterAppend | src/lib/lcsc/api.ts:52 | the filter keeps order across a concatenation |
| LcscApi.Report | src/lib/lcsc/api.ts:67-74 | a record on success; otherwise no record and the error message, `Unknown error` for a non-`Error` |
| LcscApi.RequestedCount | src/lib/lcsc/api.ts:54-57 | an abort first seen at the top of iteration k means k parts are requested (none when aborted before the call); otherwise all |
| LcscApi.FetchMultipleParts | src/lib/lcsc/api.ts:42-78 | progress `(i+1, total, part)` and one report per requested part, in order, up to where the abort is seen; the map is the one built from the requested parts' answers |
| LcscApi.FetchOne | src/lib/lcsc/api.ts:67-74 | the report is the lookup's outcome; the map gains the part's record when the lookup succeeds and is unchanged otherwise |
| LcscApi.FetchEach | src/lib/lcsc/api.ts:54-75 | the loop stops at the first iteration that sees the abort; progress, reports and map are those of the parts before that point |
| LcscApi.ResultsOfEntries | src/lib/lcsc/api.ts:69 | a looked-up part is a key iff its answer was a record, mapped to that record; no other keys |
| LcscApi.ProgressOfAt | src/lib/lcsc/api.ts:61-65 | the k-th progress report counts from one, carries the total and names the k-th part |
| LcscApi.ReportsOfAt | src/lib/lcsc/api.ts:67-74 | the k-th report is the outcome of looking up the k-th part |
| LcscApi.FetchMultiplePartsResults | src/lib/lcsc/api.ts:51-77 | the resolved map's keys are requested inputs starting with 'C'; a requested part is a key iff it was answered with a record, mapped to that record |
| LcscFetch.FailureMessage | src/hooks/useLcscFetch.ts:51 | an `Error`'s message, else `Failed to fetch` |
| LcscFetch.SetStatusAllAt | src/hooks/useLcscFetch.ts:31-33 | marking a list of part numbers changes exactly the rows carrying one of them |
| LcscFetch.OutcomeRowSettles | src/hooks/useLcscFetch.ts:47-53 | a lookup leaves its row `success` with the record and price, or `error` with the message |
| LcscFetch.ApplyOutcomesAt | src/hooks/useLcscFetch.ts:35-54 | the lookups change exactly the rows carrying a looked-up number, with that number's outcome |
| LcscFetch.RunPhasesAt | src/hooks/useLcscFetch.ts:31-42 | each row through the three phases: loading, lookups, revert of the rest |
| LcscFetch.RunRowsAt | src/hooks/useLcscFetch.ts:31-54 | rows outside the snapshot unchanged; looked-up rows carry their outcome; rows not reached are `pending` again |
| LcscFetch.CompleteRunSettles | src/hooks/useLcscFetch.ts:35-54 | an unstopped run ends every snapshot row `success` or `error` and leaves others alone |
| LcscFetch.StoppedRunRevertsToPending | src/hooks/useLcscFetch.ts:36-42 | after a stop the parts not reached are `pending` again; no row is left `loading` by the run |
| LcscFetch.StopExample | src/hooks/useLcscFetch.ts:36-42 | stopping during the first of three lookups leaves the other two lines as they were |
| LcscFetch.SetStatusAllKeepsInvariants | src/hooks/useLcscFetch.ts:31-42 | marking keeps the skip rule and distinct ids |
| LcscFetch.ApplyOutcomesKeepsInvariants | src/hooks/useLcscFetch.ts:47-53 | applying lookups keeps the skip rule and distinct ids |
| LcscFetch.RunRowsKeepsInvariants | src/hooks/useLcscFetch.ts:20-58 | a whole run keeps the skip rule and distinct ids |
| LcscFetch.LookupFailureMessage | src/hooks/useLcscFetch.ts:51 | a failed lookup always carries an `Error`; a non-2xx answer leaves a non-empty message |
| LcscFetch.ErrorLcscs | src/hooks/useLcscFetch.ts:68-69 | the part number of every `error` row is collected |
| LcscFetch.ErrorLcscsOfErrors | src/hooks/useLcscFetch.ts:68-69 | every collected part number is that of some `error` row |
| LcscFetch.RetryAt | src/hooks/useLcscFetch.ts:66-73 | rows sharing a number with an `error` row become `pending`, other fields kept; no row stays `error` |
| LcscFetch.RetryResetsSharedSuccess | src/hooks/useLcscFetch.ts:66-73 | a `success` row sharing its number with an `error` row is reset to `pending` |
| LcscFetch.CountStatus | src/hooks/useLcscFetch.ts:75-77 | the number of rows with that status, as the multiplicity in the rows' statuses; never more than the rows |
| LcscFetch.Statuses | src/hooks/useLcscFetch.ts:75-77 | the rows' statuses, position by position |
| LcscFetch.CountsPartitionRows | src/hooks/useLcscFetch.ts:75-77 | the five status counts add up to the number of rows |
| LcscFetch.MarkEach | src/hooks/useLcscFetch.ts:31-33 | the loop leaves rows equal to `SetStatusAll` of the old rows |
| LcscFetch.ApplyLookup | src/hooks/useLcscFetch.ts:47-53 | success applies the record, failure sets `error` with the message |
| LcscFetch.Fetcher.constructor | src/hooks/useLcscFetch.ts:17-18 | not running, no controller |
| LcscFetch.Fetcher.StopFetch | src/hooks/useLcscFetch.ts:60-64 | aborts the controller if there is one, empties the limiter's queue and drops every waiting task, leaves running tasks and counts alone, clears `isRunning` |
| LcscFetch.Fetcher.StartFetch | src/hooks/useLcscFetch.ts:20-58 | no pending parts: nothing changes; otherwise the snapshot requested in order up to the stop, progress `(i+1, n)`; it stalls exactly when the awaited lookup found every slot held when it joined and stop came before a slot freed; unstalled, rows equal `RunRows` and the run ends not running with progress cleared; stalled, rows equal `StalledRows`, the lookup is dropped and the progress stays set |
| LcscFetch.Fetcher.Run | src/hooks/useLcscFetch.ts:23-57 | the same, for a given snapshot |
| LcscFetch.Fetcher.RunLookups | src/hooks/useLcscFetch.ts:35-54 | the loop: each part's progress set and lookup applied until the abort is seen, then the rest set `pending`; or, when the awaited lookup was queued when it joined and stop came before a slot freed, the loop never gets past it |
| LcscFetch.Fetcher.Step | src/hooks/useLcscFetch.ts:44-53 | one iteration: progress `(i+1, n)`; the lookup waits forever iff it found every slot held when it joined and stop came before a slot freed; otherwise its outcome is applied and the run holds the slots the timing predicts |
| LcscFetch.Fetcher.LookupOne | src/hooks/useLcscFetch.ts:47-53 | the lookup through the limiter: the row change of its delivered outcome, or no change when it was queued and dropped by the stop |
| LcscFetch.Fetcher.Enter | src/lib/lcsc/api.ts:15 | `lcscRateLimiter.add`: the task waits iff every slot is held; a stop while it waits drops it |
| LcscFetch.Fetcher.ReleaseOldest | src/lib/lcsc/rate-limiter.ts:46-48 | the oldest held slots whose delay is over are freed, in order |
| LcscFetch.Reached | src/hooks/useLcscFetch.ts:35-42 | a stop while part k is awaited means k+1 parts are requested; otherwise all |
| LcscFetch.StalledRunLeavesLoading | src/hooks/useLcscFetch.ts:31-48 | after a stall the dropped part and the later ones stay `loading`, the earlier ones are settled, other rows are untouched |
| LcscFetch.HeldAfterAtMost | src/lib/lcsc/rate-limiter.ts:31-48 | a run never holds more slots than it has made lookups |
| LcscFetch.SlowAnswersNeverStall | src/lib/lcsc/rate-limiter.ts:31-48 | when each delay is over before the next lookup, no lookup queues and no stop stalls the run |
| LcscFetch.QuickAnswersQueueTheThird | src/lib/lcsc/rate-limiter.ts:69 | with two slots and quick answers the third lookup queues; a stop while it is awaited stalls the run, one during the second does not |
| LcscFetch.StallExample | src/hooks/useLcscFetch.ts:31-64 | three parts, stop while the third is queued: the first two rows settle and the third stays `loading` |
| LcscFetch.Fetcher.RetryErrors | src/hooks/useLcscFetch.ts:66-73 | rows become the retry of the old rows; nothing else changes |
| LcscRoute.InsertPos | src/app/api/lcsc/route.ts:35 | the stable insertion point: after every entry with a start not larger |
| LcscRoute.SortedSlices | src/app/api/lcsc/route.ts:35 | both parts of a sorted list cut anywhere are sorted |
| LcscRoute.SortedAround | src/app/api/lcsc/route.ts:35 | a sorted list, an entry no smaller than it and a sorted list of larger entries joined in that order are sorted |
| LcscRoute.InsertKeepsSorted | src/app/api/lcsc/route.ts:35 | inserting into a sorted list keeps it sorted |
| LcscRoute.InsertAddsOne | src/app/api/lcsc/route.ts:35 | inserting adds exactly the element and loses none |
| LcscRoute.InsertKeepsOrderOfEqualStarts | src/app/api/lcsc/route.ts:35 | an inserted entry goes after the entries with an equal start |
| LcscRoute.InsertPosSplits | src/app/api/lcsc/route.ts:35 | in a sorted list the insertion point has every smaller-or-equal start before it and every larger one after it |
| LcscRoute.WithStartOfInsert | src/app/api/lcsc/route.ts:35 | the entries with a given start after an insertion are those before the point, the new one if it has that start, then those after |
| LcscRoute.SortByStartCorrect | src/app/api/lcsc/route.ts:35 | the sort is ordered by start, a permutation, and stable |
| LcscRoute.Tiers | src/app/api/lcsc/route.ts:36-40 | each entry becomes a tier, in order |
| LcscRoute.TiersOfPermutation | src/app/api/lcsc/route.ts:34-40 | reordered entries give the same tiers |
| LcscRoute.TiersAppend | src/app/api/lcsc/route.ts:36-40 | `map` works entry by entry across a concatenation |
| LcscRoute.TiersOfSortByStart | src/app/api/lcsc/route.ts:34-40 | sorting then mapping gives the same tiers, repeats included |
| LcscRoute.TiersWithStart | src/app/api/lcsc/route.ts:34-40 | picking the tiers of one start commutes with mapping entries to tiers |
| LcscRoute.ParsePrices | src/app/api/lcsc/route.ts:31-41 | no list gives no tiers; same length, ascending minimum quantity, exactly the input's tiers with their repeats, and entries of equal start in their input order |
| LcscRoute.ParsePricesExample | src/app/api/lcsc/route.ts:31-41 | an out-of-order list comes back sorted, with -1 read as an open end |
| LcscRoute.Normalise | src/app/api/lcsc/route.ts:101-114 | each field with its default: `Unknown`, empty text, stock 0, image and product URLs |
| LcscRoute.NormaliseDefaults | src/app/api/lcsc/route.ts:101-114 | the manufacturer and URL are never empty; the tiers are ordered |
| LcscRoute.HandleGet | src/app/api/lcsc/route.ts:43-122 | 400 for a missing part before 400 for a bad format; 500 exactly for an upstream exchange that threw or answered non-2xx, with its message; for a parsed body, 404 `Part not found` exactly when the code is not 200, the list is missing or empty, or no entry matches exactly; 200 with the first exact match normalised, iff one exists |
| LcscRoute.ClientOverEndpoint | src/app/api/lcsc/route.ts:53-58 | a lookup succeeds iff the endpoint found the exact part, for that very number; a `C`-prefixed non-number always fails with the format error |
| BomExport.TransformRow | src/lib/bom/exporter.ts:21-35 | the line's fields; record text fields or empty; stock and prices kept when present, 0 included |
| BomExport.TransformRows | src/lib/bom/exporter.ts:20-36 | one export row per line, in order |
| BomExport.RowCellTexts | src/lib/bom/exporter.ts:21-35 | the 13 texts written for a line, in header order: its own fields, the part record's fields or "" without one, the stock and prices blank when absent and kept when 0 |
| BomExport.EscapePlain | src/lib/bom/exporter.ts:65-71 | a field without comma, quote or line feed is written unchanged |
| BomExport.EscapeExamples | src/lib/bom/exporter.ts:65-71 | a lone carriage return is not quoted; a quote is doubled inside quotes |
| BomExport.ReadFieldOfEscape | src/lib/bom/exporter.ts:65-71 | reading an escaped field gives back exactly the field |
| BomExport.ReadRecordOfLine | src/lib/bom/exporter.ts:81 | reading a comma-joined escaped line gives back its fields |
| BomExport.ReadRecordOfLineCons | src/lib/bom/exporter.ts:81 | a line of several fields reads back as its first field followed by what the rest of the line reads back as |
| BomExport.LineCons | src/lib/bom/exporter.ts:81 | a line of several fields is the first escaped field, a comma and the line of the rest |
| BomExport.ParseCsvOfLines | src/lib/bom/exporter.ts:78-85 | reading lines joined by line feeds gives back every record |
| BomExport.LineOfPlain | src/lib/bom/exporter.ts:79 | a line of plain fields is the fields joined by commas |
| BomExport.HeadersArePlain | src/lib/bom/exporter.ts:76-79 | no column name needs quoting |
| BomExport.LineFieldsArePlain | src/lib/bom/exporter.ts:22-26 | the five column names taken from the uploaded line need no quoting |
| BomExport.PartFieldsArePlain | src/lib/bom/exporter.ts:27-30 | the manufacturer, part, description and package column names need no quoting |
| BomExport.PriceFieldsArePlain | src/lib/bom/exporter.ts:31-34 | the stock, price and datasheet column names need no quoting |
| BomExport.CsvTextIsLines | src/lib/bom/exporter.ts:76-85 | the text is the header line, then one line per row, joined by line feeds |
| BomExport.LinesOfHeaderAndBody | src/lib/bom/exporter.ts:76-85 | the header record's line comes first, then the body's lines in order |
| BomExport.CsvRoundTrip | src/lib/bom/exporter.ts:73-89 | no rows give empty text; otherwise reading the text gives the 13 headers, then each row's 13 cells in order |
| ExportFilename.LastDot | src/components/bom/BomExporter.tsx:21 | the last dot, or none |
| ExportFilename.ExtensionStart | src/components/bom/BomExporter.tsx:21 | the one position where `\.[^/.]+$` matches, or none |
| ExportFilename.StripExtension | src/components/bom/BomExporter.tsx:21 | cuts the name at the match, or keeps it whole; the result is a prefix |
| ExportFilename.GetExportFilename | src/components/bom/BomExporter.tsx:18-24 | a non-empty name with its extension stripped plus `-extended`; otherwise `bom-extended-` and the first ten characters of the timestamp |
| ExportFilename.StripExtensionExamples | src/components/bom/BomExporter.tsx:21 | `a.tar.gz`, `pasted-bom.csv`, no dot, a trailing dot, a slash after the dot |
| ExportFilename.PastedExportName | src/components/bom/BomUploader.tsx:105 | pasted input exports as `pasted-bom-extended` |
| ExportFilename.DatedExportName | src/components/bom/BomExporter.tsx:23 | without a name the export is named after the day |

## Left out

- CSV tokenising by Papa Parse and its header lower-casing are not modelled. The model starts from the tokenizer's records and errors.
- BomParser.ParseQuantity: `parseInt` is modelled for decimal digits after an optional sign and a subset of JavaScript white space. Results beyond 2^53 are kept exact rather than rounded.
- Number formatting is a parameter. `String(x)` for prices and `toFixed`/`toLocaleString` in the UI are not modelled, and neither is floating-point rounding of `unitPrice * quantity`. Prices are `real`.
- The network exchanges are inputs: the `fetch` in the endpoint and in the client, and `response.json()`.
- Timers and promise interleaving are reduced to the limiter's discrete events. `setTimeout` and real time are not modelled.
- RateLimiting.RateLimiter: only whole-number configurations are modelled. A negative or fractional `maxConcurrent` or `delayMs` is not.
- LcscFetch.Fetcher.StartFetch: the stop is modelled as one press while a lookup is awaited. Two runs interleaving, which the hook does not itself prevent, are not modelled. `isRunning` and the abort controller are plain fields.
- LcscFetch.Fetcher.StartFetch: a run starts on an idle limiter, with no task queued or running and no slot cooling down, and the limiter has at least one slot. Lookups of other callers sharing the limiter are not modelled. The app's instance has 2 slots.
- Real time is reduced to `elapsed`, the count of delays that are over when each lookup joins the limiter. When the answers arrive within those delays is not modelled. A lookup counts as queued at the stop when it found every slot held on joining and the stop came before a slot freed; one let in later and stopped while running is the running case.
- LcscRoute.ParsePrices: `Array.prototype.sort` is a library call, modelled as a pure stable sort. The in-place reordering of the upstream array, which is discarded afterwards, is not modelled.
- LcscRoute.HandleGet: a JSON `error` field that is not a string is not modelled. The client reads only a non-empty string field.
- BomStore.Store.TotalCost has no contract of its own. `DeleteFirstTotal`, `SumTotalsAppend` and `SumTotalsOfUnpriced` state what it adds up.
- RateLimiting.RateLimiter.PendingCount and RunningCount return the queue length and the slot count directly.
- The Excel export (`exportToExcel`, XLSX) and the browser download (`Blob`, `downloadBlob`) are not modelled.
- `console.error` in the endpoint is not modelled.
- UI components other than `getExportFilename` are not modelled: the table, the uploader, the fetcher panel and the page.
- A patch that carries a key with the value `undefined` is not modelled: `lcsc`, `unitPrice`, `totalPrice`, `lcscInfo` or `errorMessage` set explicitly to `undefined`. Each patch key is either absent or carries a value.
