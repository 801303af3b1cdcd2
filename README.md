# Daily planner core, modelled in Dafny

This project models the parts of a task-planning web app that compute
something: the daily schedule endpoint, the client helpers around it, the
reader of stored task documents, and the script that exports attempts as
training rows.

- **Schedule endpoint** (`ScheduleRoute`, from `src/app/api/schedule/generate/route.ts`).
  - It keeps the pending tasks.
  - It orders them by priority rank, then due time (none counts as last), then name.
  - It packs them greedily into back-to-back blocks from the window's start.
  - Each block is cut to the capacity left, which is the smaller of the window length and the daily target.
  - `Post` is the loop written imperatively. It is proved equal to the function `Schedule`.
  - Lemmas prove ordering, prefix-of-queue, gaplessness, block lengths, total, containment, and that the window test never fires.
- **Client helpers** (`AISchedule`, from `src/components/AISchedule.tsx`).
  - `currentDate` with its two-digit padding, `toISO`, `tasksForApi` and `prefsForApi`.
  - The guard that posts nothing without preferences.
  - The loop of `acceptPlan` that copies each block's start, end and source onto its task. The loop stops at the first task that does not exist.
- **Task documents** (`TaskDocs`, from `lib/db/task.ts`): `docToTask`, whose `??` defaults differ from the `||` defaults used elsewhere.
- **Export script** (`Csv` and `ExportScript`, from `scripts/export.ts`).
  - `Csv` covers CSV quoting. It is proved to round-trip through a record reader.
  - `ExportScript` covers the time-of-day bins, whole days until due, and same-day comparison.
  - It also covers the per-user loop: it skips unscheduled tasks, sorts attempts by start and labels each one as on time or not. Running counters supply each row's prior success rates. The loop is written as methods proved equal to specification functions.
  - Lemmas show that each row's rates come only from earlier attempts, that wins never exceed totals, and that the per-category totals sum to the overall total.

Two shared modules support these:
- `Js` holds JavaScript values with truthiness, nullishness, `String()` and `Number()`.
- `Sorting` is an insertion sort standing for `Array.prototype.sort`, proved ordered, a permutation and stable.

In several places the code does something a reader might not expect, such as an endpoint default that differs from the client's or a block that is cut rather than dropped. The model follows the code:
- The endpoint defaults a missing `targetHoursPerDay` to 0 hours. Only the client defaults it to 2.
- A task whose block would cross the window's end is **truncated**, not dropped. In whole minutes the capacity never exceeds the window, so the `end > windowEnd` break never fires (`ScheduleRoute.WindowTestNeverFires`, `ScheduleRoute.ScheduleByCapacityAlone`).
  - In a 09:00–10:00 window with a 50-minute High task and a 20-minute Medium task, the code emits two blocks. The second is cut to 10 minutes (`ScheduleRoute.SecondTaskCutExample`).
- An empty status string counts as pending (`!task.status`), as well as a missing one.
- A negative daily target gives negative capacity, and so no blocks.
- The scheduler has a 5-minute floor for a missing estimate, but `docToTask` defaults the estimate to 30 minutes (`TaskDocs.MissingEstimateDefaultsDiffer`).
- A numeric priority (the store writes 1, 2 or 3) always ranks as Medium (`ScheduleRoute.NumericPriorityRanksMedium`).
- The export counts events typed `"regen"`, while `acceptPlan` logs events typed `"regenerate"`.

Times in the endpoint are whole minutes on one local clock. `today` is the local midnight of the request's date, or None when that date is not a date. In that case every instant built from it is an Invalid Date, and the endpoint throws as soon as it formats a block. Dates in the export are a millisecond count plus the local calendar fields the script reads through `getFullYear`, `getMonth`, `getDate`, `getHours` and `getDay`.

## Model

| member | source | states |
|---|---|---|
| Js.OrElse | src/components/AISchedule.tsx:54-57 | `s \|\| d` on an optional string: a missing or empty string gives the default, any other is kept |
| Js.Pad | src/components/AISchedule.tsx:38 | below 100 the text is exactly two digits that read back as n, with a leading "0" exactly when n < 10 |
| Js.PadReadsBack | src/components/AISchedule.tsx:38 | every two-digit text is the padding of its own value, so padding below 100 is onto the two-digit texts |
| Js.ToJsString | scripts/export.ts:56 | `String(v)`: its text for an integer reads back through `Number` (`Js.NumberOfStringOfInt`) |
| Js.ToNumber | lib/db/task.ts:25 | `Number(v)`: null and false are 0, true is 1, an integer is itself, the empty string is 0, another string is read as an optionally signed decimal integer, anything else is NaN |
| Js.NumberOfStringOfInt | scripts/export.ts:145 | `Number(String(n))` is n for every integer n |
| Sorting.Sort | scripts/export.ts:172-174 | the sort returns a rearrangement of its input: same length, same multiset |
| Sorting.SortStable | scripts/export.ts:172-174 | the sort is stable: for every element, the elements comparing equal to it appear in the same order as in the input |
| Sorting.SortSorted | src/app/api/schedule/generate/route.ts:48-58 | under a total preorder comparator the result is ordered and a permutation of the input |
| ScheduleRoute.ClockMinutes | src/app/api/schedule/generate/route.ts:25-27 | a valid "HH:MM" time is between 0 and 24·60 minutes and has the shape dd:dd; `ClockMinutesReadsBack` ties the value to the digits |
| ScheduleRoute.ClockRoundTrip | src/app/api/schedule/generate/route.ts:25-27 | every minute of the day written as padded "HH:MM" reads back as itself |
| ScheduleRoute.ClockMinutesReadsBack | src/app/api/schedule/generate/route.ts:25-27 | a time that reads as minute m is exactly the padded text of m div 60 and m mod 60 ("24:00" for 1440) |
| ScheduleRoute.MakeDate | src/app/api/schedule/generate/route.ts:25-27 | `makeDate` is a valid instant exactly when both the date and the time are valid, and then lies within that day |
| ScheduleRoute.MakeDateValue | src/app/api/schedule/generate/route.ts:25-27 | the instant of a valid time of day is the day's midnight plus the time's minutes |
| ScheduleRoute.MakeDateReadsBack | src/app/api/schedule/generate/route.ts:25-27 | the instant determines the time's text: it is the padded text of the minutes since midnight |
| ScheduleRoute.AddMinutes | src/app/api/schedule/generate/route.ts:29-31 | the instant the given number of minutes later; instants are counted in minutes here |
| ScheduleRoute.AvailableMinutes | src/app/api/schedule/generate/route.ts:41-43 | capacity is at most the clamped window length and at most the target in minutes (missing target = 0), and equals one of them |
| ScheduleRoute.Eligible | src/app/api/schedule/generate/route.ts:47 | a task is eligible exactly when its status is missing, empty or "pending" |
| ScheduleRoute.Pending | src/app/api/schedule/generate/route.ts:46-47 | a task is kept exactly when it is in the input with status missing, empty or "pending" |
| ScheduleRoute.PendingCounts | src/app/api/schedule/generate/route.ts:46-47 | each eligible task is kept as often as it is listed, and no other task is kept |
| ScheduleRoute.PendingAppend | src/app/api/schedule/generate/route.ts:46-47 | the filter keeps the listed order: filtering a concatenation is concatenating the filtered parts |
| ScheduleRoute.Rank | src/app/api/schedule/generate/route.ts:49-50 | the rank is 0..2, 0 exactly for High, 2 exactly for Low, 1 for everything else including missing |
| ScheduleRoute.NumericPriorityRanksMedium | src/app/api/schedule/generate/route.ts:49-50 | a priority that is a number, looked up by its decimal text, always ranks 1 |
| ScheduleRoute.LexCompare | src/app/api/schedule/generate/route.ts:57 | the name order, character by character with a prefix first; its properties are the two lemmas below |
| ScheduleRoute.LexCompareAntisymmetric | src/app/api/schedule/generate/route.ts:57 | the name comparison flips sign with its arguments and is zero only for equal names |
| ScheduleRoute.LexCompareTransitive | src/app/api/schedule/generate/route.ts:57 | the name comparison is transitive |
| ScheduleRoute.Compare | src/app/api/schedule/generate/route.ts:48-58 | the comparator; `TaskLeMeaning`, `CompareAntisymmetric` and `CompareTransitive` state what its sign means |
| ScheduleRoute.TaskLeMeaning | src/app/api/schedule/generate/route.ts:48-58 | a task may precede another iff it has a lower rank, or equal rank and earlier due (none last), or equal rank and due and a name not after |
| ScheduleRoute.CompareAntisymmetric | src/app/api/schedule/generate/route.ts:48-58 | the comparator is antisymmetric and zero exactly when rank, due time and name all agree |
| ScheduleRoute.CompareTransitive | src/app/api/schedule/generate/route.ts:48-58 | the comparator's order is transitive |
| ScheduleRoute.TaskLeTotalPreorder | src/app/api/schedule/generate/route.ts:48-58 | the comparator is a total preorder, so the sort is well defined |
| ScheduleRoute.Queue | src/app/api/schedule/generate/route.ts:46-58 | the sorted queue has as many tasks as are pending |
| ScheduleRoute.QueueOrdered | src/app/api/schedule/generate/route.ts:46-58 | the queue is a permutation of the pending tasks, holds exactly the eligible input tasks, is ordered by the comparator, and ranks never decrease along it |
| ScheduleRoute.QueueStable | src/app/api/schedule/generate/route.ts:46-58 | tasks equal in rank, due time and name leave the sort in the order the filter kept them |
| ScheduleRoute.Duration | src/app/api/schedule/generate/route.ts:65 | a block wants exactly the estimate when that is 5 or more, and exactly 5 minutes when the estimate is missing or smaller |
| ScheduleRoute.Pack | src/app/api/schedule/generate/route.ts:60-82 | the packing loop as a function; the `Pack…` lemmas below state its properties |
| ScheduleRoute.PackByCapacity | src/app/api/schedule/generate/route.ts:64-82 | the packing loop without its window test; equal to `Pack` when the capacity fits in the window (`WindowTestNeverFires`) |
| ScheduleRoute.PackFollowsQueue | src/app/api/schedule/generate/route.ts:64-82 | the blocks' task ids are those of a prefix of the queue, in order, and every block has source "ai" |
| ScheduleRoute.PackGapless | src/app/api/schedule/generate/route.ts:60-82 | the first block starts at the cursor and each block starts where the previous one ended |
| ScheduleRoute.PackBlockLengths | src/app/api/schedule/generate/route.ts:65-71 | each block lasts min(duration, capacity still left) and is strictly positive |
| ScheduleRoute.PackWithinWindow | src/app/api/schedule/generate/route.ts:68-71 | every block lies between the cursor and the window's end |
| ScheduleRoute.PackTotal | src/app/api/schedule/generate/route.ts:62-81 | the blocks' total equals the time from the cursor to the last end and does not exceed the capacity |
| ScheduleRoute.PackInsideWindow | src/app/api/schedule/generate/route.ts:60-82 | with the capacity inside the window, the blocks are gapless from its start, positive, inside it, within capacity, and use it all if tasks remain |
| ScheduleRoute.WindowTestNeverFires | src/app/api/schedule/generate/route.ts:68-71 | when the capacity fits in the window, the loop with the `end > windowEnd` break equals the loop without it |
| ScheduleRoute.PackStopsOnlyWhenFull | src/app/api/schedule/generate/route.ts:64-82 | when the capacity fits in the window, tasks are left over only once the whole capacity is used |
| ScheduleRoute.Schedule | src/app/api/schedule/generate/route.ts:33-85 | the endpoint throws exactly when some task is pending and the window start or end is an Invalid Date |
| ScheduleRoute.Post | src/app/api/schedule/generate/route.ts:33-85 | the imperative packing loop returns exactly the response `Schedule` specifies |
| ScheduleRoute.ScheduleFollowsQueue | src/app/api/schedule/generate/route.ts:46-82 | the blocks follow a prefix of the queue in comparator order, and every block belongs to an eligible input task |
| ScheduleRoute.ScheduleInsideWindow | src/app/api/schedule/generate/route.ts:39-82 | with a valid window the blocks are gapless from its start, positive, inside it, total at most the capacity, and use it all if tasks remain |
| ScheduleRoute.ScheduleEmptyWhenNoCapacity | src/app/api/schedule/generate/route.ts:41-43 | an empty or inverted window, or a missing, zero or negative target, yields no blocks |
| ScheduleRoute.ScheduleByCapacityAlone | src/app/api/schedule/generate/route.ts:68-71 | with a valid window the response is the capacity-only packing of the queue |
| ScheduleRoute.NineAndTen | src/app/api/schedule/generate/route.ts:39-40 | "09:00" is minute 540 and "10:00" is minute 600 |
| ScheduleRoute.TruncatedToWindowExample | src/app/api/schedule/generate/route.ts:64-82 | a 90-minute task in a 09:00–10:00 window with a two-hour target gets one 60-minute block |
| ScheduleRoute.HighBeforeMediumQueue | src/app/api/schedule/generate/route.ts:48-51 | a High task is queued before a Medium one listed first |
| ScheduleRoute.NineToTenWindow | src/app/api/schedule/generate/route.ts:36-43 | a 09:00–10:00 window with a two-hour target starts at minute 540, ends at 600 and offers 60 minutes |
| ScheduleRoute.HighThenMediumPack | src/app/api/schedule/generate/route.ts:64-82 | a 50-minute then a 20-minute task in that window give blocks 09:00–09:50 and 09:50–10:00 |
| ScheduleRoute.SecondTaskCutExample | src/app/api/schedule/generate/route.ts:64-82 | after a 50-minute block in a one-hour window, the next 20-minute task is cut to 10 minutes, not dropped |
| ScheduleRoute.NameTieBreakExample | src/app/api/schedule/generate/route.ts:57 | with equal rank and due time, "Alpha" is queued before "Beta" |
| AISchedule.CurrentDate | src/components/AISchedule.tsx:36-39 | `currentDate()` for a given clock reading; `CurrentDateReadsBack` states its form |
| AISchedule.CurrentDateReadsBack | src/components/AISchedule.tsx:36-39 | for a four-digit year the date text is "YYYY-MM-DD" and its parts read back as the year, month counted from 1, and day |
| AISchedule.ToIso | src/components/AISchedule.tsx:42-49 | there is a result exactly for a truthy string or Timestamp: the string itself, or the Timestamp's ISO text |
| AISchedule.TasksForApi | src/components/AISchedule.tsx:51-60 | one posted task per task, same length, ids in the same order |
| AISchedule.ApiTaskDefaults | src/components/AISchedule.tsx:54-58 | missing or empty name, priority and status take "", "Medium" and "pending", a non-number estimate takes 0, present values are kept |
| AISchedule.ToApiTaskIdempotent | src/components/AISchedule.tsx:51-60 | normalising an already posted task changes nothing |
| AISchedule.PostedTaskKeepsMeaning | src/components/AISchedule.tsx:51-60 | the endpoint sees the posted task as eligible, ranked and named as the stored one, and a non-number estimate takes the 5-minute floor |
| AISchedule.PrefsForApi | src/components/AISchedule.tsx:62-69 | a missing or empty start or end time takes 09:00 or 17:00, with or without stored preferences; a set one is kept; a non-number target takes 2 hours |
| AISchedule.ClientDefaultsReachEndpoint | src/components/AISchedule.tsx:62-69 | preferences with no times and no target reach the endpoint as a 540–1020 window with 120 minutes of capacity |
| AISchedule.GeneratePlanRequest | src/components/AISchedule.tsx:91-107 | no request is built exactly when preferences are missing; otherwise it carries the normalised tasks, preferences and date |
| AISchedule.Scheduled | src/components/AISchedule.tsx:126-130 | the update sets scheduledStart, scheduledEnd and scheduleSource from the block and leaves every other field |
| AISchedule.ScheduledOverwrites | src/components/AISchedule.tsx:124-131 | a later block for the same task replaces everything an earlier one wrote |
| AISchedule.WriteBlocks | src/components/AISchedule.tsx:123-132 | the writes of the accept loop in order, stopping at the first missing task; `WriteBlocksEffect` and `WriteBlocksStopsAtMissingTask` state the effect |
| AISchedule.AcceptPlan | src/components/AISchedule.tsx:120-143 | accepting does nothing exactly when there are no blocks; otherwise the store is as the writes leave it, and the plan counts as saved exactly when every write succeeded |
| AISchedule.WriteBlocksEffect | src/components/AISchedule.tsx:120-143 | the writes keep the set of tasks, succeed iff every block names an existing task, and then leave each task with its last block's fields |
| AISchedule.WriteBlocksStopsAtMissingTask | src/components/AISchedule.tsx:123-142 | a failed accept keeps exactly the writes made before the first block whose task does not exist |
| TaskDocs.Coalesce | lib/db/task.ts:22-27 | `v ?? d` replaces only null and undefined |
| TaskDocs.DocToTask | lib/db/task.ts:14-29 | the id is kept; missing or null fields become "", "Other", 2, 30, "pending" and now; present strings (name, category) and numbers (estimate), empty or zero ones included, pass through, other values are converted with `String`/`Number`; present priorities and statuses pass through unchanged |
| TaskDocs.MissingEstimateDefaultsDiffer | lib/db/task.ts:25 | a document without an estimate reads as 30 minutes, while the scheduler packs such a task as 5 |
| TaskDocs.DocToTaskRoundTrip | lib/db/task.ts:14-29 | reading back the document of a task with set priority and status gives the task itself |
| Csv.DoubleQuotes | scripts/export.ts:58 | doubling never shortens, changes nothing without quotes, and keeps commas |
| Csv.UndoubleDoubleQuotes | scripts/export.ts:58 | un-doubling the quotes recovers the original text |
| Csv.QuoteField | scripts/export.ts:57-60 | text without `"`, `,` or line feed is unchanged; otherwise it is wrapped in quotes and the inside un-doubles to the original |
| Csv.EscapeForCsv | scripts/export.ts:54-61 | null and undefined give ""; otherwise `String(v)` is unchanged or quoted with inner quotes doubled, recoverable |
| Csv.ReadBareRoundTrip | scripts/export.ts:60 | an unquoted field that needs no quotes reads back as itself before a comma or the end |
| Csv.ReadQuotedRoundTrip | scripts/export.ts:58 | a doubled-quote body with its closing quote reads back as the original text |
| Csv.ReadFieldRoundTrip | scripts/export.ts:57-60 | any escaped field followed by a comma or the end reads back as the original text |
| Csv.Join | scripts/export.ts:217 | `.join(",")`: cells separated by commas; `RecordRoundTrip` shows the joined line splits back into its cells |
| Csv.RecordRoundTrip | scripts/export.ts:202-217 | escaped fields joined with commas read back as exactly the fields |
| Csv.EscapedRowRoundTrip | scripts/export.ts:202-217 | a row of values escaped and joined reads back as each value's text |
| ExportScript.TimeOfDay | scripts/export.ts:27-33 | hours below 6 are night, 6–11 morning, 12–17 afternoon, 18 and later evening |
| ExportScript.TimeOfDayMonotone | scripts/export.ts:27-33 | a later hour never falls in an earlier bin |
| ExportScript.DaysUntilDue | scripts/export.ts:40-44 | empty exactly without a due date; otherwise n whole days with n·86400000 ≤ due − start < (n+1)·86400000, negative exactly when due comes first |
| ExportScript.IsSameLocalDay | scripts/export.ts:46-52 | same local year, month and day of the month; an equivalence by the next lemma |
| ExportScript.SameLocalDayIsEquivalence | scripts/export.ts:46-52 | same-local-day is reflexive, symmetric and transitive |
| ExportScript.RegenDates | scripts/export.ts:101-108 | the regeneration dates in event order; `RegenDatesMembers` states which dates |
| ExportScript.RegenDatesMembers | scripts/export.ts:101-108 | a date is collected exactly when some event of type "regen" has that timestamp |
| ExportScript.WasRegenerated | scripts/export.ts:150-156 | the flag is 0 or 1, and 1 exactly when some regeneration date falls on the start's local day |
| ExportScript.Estimate | scripts/export.ts:145 | a number is kept, a falsy value gives 0, a non-empty string is converted with `Number` |
| ExportScript.EstimateOfNumberText | scripts/export.ts:145 | an estimate stored as the text of a whole number reads as that number |
| ExportScript.AttemptOf | scripts/export.ts:135-169 | no attempt exactly when start or end is missing; otherwise the user id, task id, estimate, start, end, due and completion dates are carried over, category and priority default to "General" and "Medium" when falsy, and the regeneration flag is 0 or 1, 1 exactly for a same-day regeneration |
| ExportScript.Attempts | scripts/export.ts:132-170 | the attempts of the tasks in document order; `AttemptsAreScheduledTasks` states which |
| ExportScript.AttemptsAppend | scripts/export.ts:129-170 | the attempts keep document order: two runs of documents give the first run's attempts followed by the second's |
| ExportScript.AttemptsAreScheduledTasks | scripts/export.ts:132-170 | an attempt is listed exactly when it is the attempt of some task, and there are no more attempts than tasks |
| ExportScript.RegeneratedOnSameDay | scripts/export.ts:101-156 | wasRegenerated is 1 exactly when a "regen" event of the user falls on the start's local day |
| ExportScript.Chronological | scripts/export.ts:172-174 | the sort by start; `ChronologicalOrder` and `ChronologicalStable` state its result |
| ExportScript.ChronologicalOrder | scripts/export.ts:172-174 | the attempts are a permutation of the collected ones, in non-decreasing scheduled start |
| ExportScript.ChronologicalStable | scripts/export.ts:172-174 | attempts with the same start keep the order in which they were collected |
| ExportScript.OnTime | scripts/export.ts:182-185 | the label is blank exactly without completedAt, and 1 exactly when completedAt ≤ scheduledEnd |
| ExportScript.Record | scripts/export.ts:221-230 | one attempt's counter updates; `TallyCounts` states what the counters then hold |
| ExportScript.Tally | scripts/export.ts:221-230 | the counters after the given attempts in order; `TallyCounts`, `CountersBounded` and `CategoryTotalsSum` state what they hold |
| ExportScript.TallyCounts | scripts/export.ts:221-230 | the counters equal independent counts of the attempts seen: total, on-time wins, and per-category totals and wins, with keys exactly the categories seen |
| ExportScript.CountersBounded | scripts/export.ts:221-230 | wins never exceed totals, overall and per category |
| ExportScript.CategoryTotalsSum | scripts/export.ts:224-229 | the per-category totals sum to the overall total, and the per-category wins to the overall wins |
| ExportScript.MakeRow | scripts/export.ts:182-216 | an attempt's row from the counters before it; `PriorRates` states its rates |
| ExportScript.Rows | scripts/export.ts:181-219 | one row per attempt, each from the counters of the attempts before it |
| ExportScript.RowsStep | scripts/export.ts:187-230 | one more attempt adds its row, computed from the counters before it, then updates the counters |
| ExportScript.PriorRates | scripts/export.ts:187-196 | row i's overall and category rates are the success rates of attempts 0..i-1 only |
| ExportScript.RatesIgnoreOwnAndLaterOutcomes | scripts/export.ts:187-196 | a row's rates do not change with its own outcome or with any later attempt |
| ExportScript.FirstRowHasNoRates | scripts/export.ts:187-196 | the first row of a user has both rates empty |
| ExportScript.CsvLine | scripts/export.ts:202-217 | a row's escaped cells joined with commas; `CsvLineReadsBack` states what it reads back as |
| ExportScript.CsvLineReadsBack | scripts/export.ts:202-217 | every written line splits back into one field per header column, with user and task ids intact |
| ExportScript.CollectRegenDates | scripts/export.ts:101-108 | the events loop collects exactly the regeneration dates |
| ExportScript.FindRegeneration | scripts/export.ts:150-156 | the search with early exit computes the regeneration flag |
| ExportScript.CollectAttempts | scripts/export.ts:132-170 | the tasks loop builds exactly the attempts of the tasks in order |
| ExportScript.WriteRows | scripts/export.ts:176-231 | the counter loop writes, for each attempt, its row from the counts of the attempts before it |
| ExportScript.ExportUser | scripts/export.ts:90-231 | one user's rows are those of the attempts sorted by start, each with its prior rates |

## Left out

- Storage and network I/O is not modelled:
  - the Firestore reads and subscriptions;
  - the writes of `createTask`, and `logEvent`;
  - the `fetch` in `generatePlan` and its response handling;
  - the alerts and React state;
  - the export's collection reads and file write.
  The stored documents, events and tasks are parameters. A failed `updateDoc` is modelled only as the write to a task that does not exist.
- The export script's file assembly is left out: the header row, joining lines with "\n", and the final row count. `Header` gives the column names, and `CsvLine` gives each line.
- `toDateSafe` is left out, because date parsing is out of scope. Each date field is the result of `toDateSafe`, with None for a missing or invalid date.
- In the endpoint, `new Date(a.dueAt)` is taken as already parsed. An unparseable due date (NaN in the comparator) is not modelled.
- Time zones, DST, ISO text formatting and `getDay` are left out. Calendar fields are inputs, and a Timestamp's ISO text is a given string.
- `Math.round` of fractional estimates, fractions in general and NaN are left out. Estimates and targets are integers. An estimate that `Number` cannot read is None.
- `Number(s)` reads only optionally signed decimal integers. Whitespace, hexadecimal, exponents and fractions are not modelled.
- The rate formatting `toFixed(3)` is a parameter of `CsvLine`. Rates are kept as integer pairs of wins and total.
- ScheduleRoute.LexCompare models `localeCompare` as lexicographic order on Dafny characters, which are Unicode scalar values, because locale collation is not available. This also differs from UTF-16 code-unit order for characters above U+FFFF.
- ScheduleRoute.Rank ranks every priority other than "High", "Medium" and "Low" as 1. In the code the lookup on the object literal `priorityOrder` also finds inherited members, so a priority such as "toString", "constructor", "valueOf" or "__proto__" gives a function or an object, the difference is NaN and the comparator is inconsistent. No part of the app writes such a priority, and the model does not cover it.
- ScheduleRoute.Task holds priorities as text. A numeric priority is represented by its decimal text, which is the key the lookup uses.
- AISchedule.CurrentDate takes the clock reading as parameters, and TaskDocs.DocToTask takes `new Date()` as the parameter `now`.
- The UI, authentication, the LLM goal route and the Python service are not part of this model.
