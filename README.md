# Soluna core: day keys, habit counters, routines and the routine cache

Soluna is a habit and routine tracker. This project models its core:

- **Day keys.** An instant maps to the start of its day and to an eight-digit `yyyyMMdd` key.
- **Habit counters.** Each habit has one counter document per day, stored under `habitId_dayKey`. A capped tick raises the counter by one until the habit's daily target is reached. Queries read back today's counts, a date range of counters, and the current streak of consecutive days.
- **Routines.** A routine has steps stored under it and one log per day, stored under `routineId_dayKey`. A log holds the ids of the steps completed that day, the step total, and a completion flag. The repository creates, updates and deletes routines, adds, deletes and reorders steps, and toggles a step in today's log.
- **The routine view model.** It caches the routines, each routine's steps and today's logs. It keeps that cache in step with the repository after each action, and derives each routine's progress ring from it.

## Modules

- **Wrappers.** `Option` (Swift optionals, `??` as `GetOr`) and `Result` (Swift `throws`).
- **Calendar.** Instants are whole seconds on a fixed local clock. `DayOf` and `DayStart` convert between instants and day numbers. The proleptic Gregorian civil date of a day number, `CivilFromDays`, is defined by stepping one day at a time from 1970-01-01, and is proved valid, increasing and injective.
- **Text.** Zero-padded decimal formatting (`FormatInt`, the `%0Nd` conversion), its inverse `ParseInt`, and a small `String(format:)` interpreter, `Printf`, for `%0Nd` directives.
- **DayKey.** `DayKey.startOfDay` and `DayKey.key`. `FormatPattern` is a small `DateFormatter` pattern interpreter for the numeric `y`, `M` and `d` fields.
- **Models.** The records `Routine`, `RoutineStep` and `RoutineLog` (plus `Habit` and `HabitLog`). Also the composite per-day document ids and the log conventions.
- **Listing.** Insertion into a sequence kept sorted by an integer key. This is how the ordered queries (`order(by:)`) are modelled.
- **HabitLogRepository.** The habit-log store, as a class over a map of counter documents.
- **RoutineRepository.** The routine store, as a class over three maps: the routines, the steps keyed by (routine id, step id), and the routine logs.
- **RoutineViewModel.** `RoutineVM`, as a class over the cache, holding a reference to the store.

## How the model works

- **Stored documents.** Every stored field is an `Option`. A field that is missing, or of another type than the code expects, is `None`. The mappers read `None` as the source's default.
- **Generated ids and the clock.** Document ids the backend generates are parameters (`newId`, `newStepId`). The current instant `Date()` is a parameter (`now`).
- **Sign-in and the backend.** In the view model these are two flags:
  - `signedIn`: when false, the `AuthService.shared.uid` guard makes every action return with nothing changed.
  - `online`: when false, the backend cannot be reached. The action's first repository call fails, `error` is set, and nothing else changes.
- **Updates to missing documents.** An `updateData` on a document that does not exist fails with `NotFound`.
- **Transactions.** Transactions and batches are single atomic method bodies. `FieldValue.increment` is a plain `+1`/`-1`, with a missing count read as 0.

## Behaviour worth knowing

- **`deleteStep` on a missing step.** `deleteStep` lowers `stepsCount` even when the step id was not stored, so the count falls one below the number of stored steps (`RoutineRepository.DeleteMissingStepMiscounts`). The count invariant is proved for deleting a step that exists.
- **The streak loop.** The loop of `streak` has no bound of its own. It ends because only keys of days in the look-back window were collected.

## Model

| member | source | states |
|---|---|---|
| DayKey.StartOfDay | Soluna/Core/Utils/DayKey.swift:4-6 | the start of the day lies at or before the instant, less than a day before it, on the same day |
| DayKey.StartOfDayIdempotent | Soluna/Core/Utils/DayKey.swift:4-6 | the start of day of a start of day is itself |
| DayKey.KeyDependsOnDayStart | Soluna/Core/Utils/DayKey.swift:13 | two instants with the same start of day get the same key |
| DayKey.KeyPatternFields | Soluna/Core/Utils/DayKey.swift:12 | the pattern `yyyyMMdd` formats a date as its 4-digit year, 2-digit month and 2-digit day, with no separators |
| DayKey.KeyIsCivilKey | Soluna/Core/Utils/DayKey.swift:8-14 | `Key`, the model of `DayKey.key`: the key of an instant is the year/month/day string of the fixed Gregorian civil date of its day, so the user's locale plays no part |
| DayKey.KeyIsEightDigits | Soluna/Core/Utils/DayKey.swift:12 | the key is exactly eight decimal digits if and only if the year is in 0..9999 |
| DayKey.CivilKeyInjective | Soluna/Core/Utils/DayKey.swift:10-12 | two valid civil dates have the same key exactly when they are the same date |
| DayKey.KeyInjective | Soluna/Core/Utils/DayKey.swift:8-14 | two instants have the same key exactly when they have the same start of day |
| DayKey.KeyHasNoUnderscore | Soluna/Core/Utils/DayKey.swift:8-14 | a key never contains the `_` that separates the parts of a per-day document id |
| Calendar.CivilInjective | Soluna/Core/Utils/DayKey.swift:10 | distinct day numbers have distinct Gregorian civil dates |
| Calendar.CivilValid | Soluna/Core/Utils/DayKey.swift:10 | every day number's civil date is a valid date (month 1..12, day within the month, leap years included) |
| Text.ParseFormatInt | Soluna/Core/Repositories/HabitLogRepository.swift:20 | a zero-padded number parses back to itself |
| Text.FormatIntInjective | Soluna/Core/Repositories/HabitLogRepository.swift:20 | distinct numbers format to distinct strings at any width |
| Text.FormatIntWidth | Soluna/Core/Repositories/HabitLogRepository.swift:20 | a formatted number is exactly `width` digits if and only if it is in 0..10^width-1 |
| Models.AllWeekdaysExactly | Soluna/Core/Models/Routine.swift:8-9 | the default schedule holds exactly the weekday numbers 1..7 |
| Models.CompositeIdInjective | Soluna/Core/Models/Routine.swift:36 | `owner_key` ids are equal exactly when owner and key are, for keys without `_` |
| Models.LogIdInjective | Soluna/Core/Models/Routine.swift:35 | `LogId`, the routine log's `routineId_dayKey` id: two log ids are equal exactly when routine and start of day are: at most one log per routine per day |
| Listing.InsertBy | Soluna/Core/Repositories/RoutineRepository.swift:135 | inserting into a key-sorted list keeps it sorted and adds exactly the new element |
| Listing.InsertByMembers | Soluna/Core/Repositories/RoutineRepository.swift:135 | the members after an insertion are the old ones and the new one |
| HabitLogRepository.DayKeyFormatFields | Soluna/Core/Repositories/HabitLogRepository.swift:20 | `%04d%02d%02d` applied to year, month and day is their zero-padded concatenation |
| HabitLogRepository.DayKeysAgree | Soluna/Core/Repositories/HabitLogRepository.swift:15-21 | `DayKeyOf`, the model of `HabitLogRepository.dayKey`, gives the same string as `DayKey.key` for every instant, on a device whose calendar is Gregorian (the only calendar modelled) |
| HabitLogRepository.DayKeyOfInjective | Soluna/Core/Repositories/HabitLogRepository.swift:15-21 | two instants share a day key exactly when they fall on the same day |
| HabitLogRepository.CounterIdInjective | Soluna/Core/Repositories/HabitLogRepository.swift:46-47 | `CounterId`, the counter's `habitId_dayKey` id: two counter ids are equal exactly when habit and day are, so a habit has one counter per day |
| HabitLogRepository.TickOn | Soluna/Core/Repositories/HabitLogRepository.swift:52-67 | the tick fails with `TargetReached` exactly when the stored count (0 when absent) is at least the target, and then changes nothing. Otherwise it stores and returns count+1 (never above the target), with the habit id and the start of day. No other document changes |
| HabitLogRepository.TickOutcome | Soluna/Core/Repositories/HabitLogRepository.swift:43-47 | a habit without an id returns 0 and writes nothing. Otherwise the tick acts on the document `habitId_dayKey` of the day |
| HabitLogRepository.TicksWithinTarget | Soluna/Core/Repositories/HabitLogRepository.swift:56-67 | starting from count c, n ticks that stay within the target return c+1 .. c+n and leave the count at c+n |
| HabitLogRepository.TickTimesSplit | Soluna/Core/Repositories/HabitLogRepository.swift:43-68 | n+1 ticks are n ticks followed by one more |
| HabitLogRepository.TicksUpToTarget | Soluna/Core/Repositories/HabitLogRepository.swift:56-67 | from zero, `target` ticks return 1..target. The next tick fails with `TargetReached` and the count stays at the target |
| HabitLogRepository.TickKeepsWellKeyed | Soluna/Core/Repositories/HabitLogRepository.swift:46-65 | a tick keeps every counter stored under its own `habitId_dayKey` id |
| HabitLogRepository.TickWritesDayCounter | Soluna/Core/Repositories/HabitLogRepository.swift:46-49 | the document a tick addresses is the habit's counter for the day of the date |
| HabitLogRepository.HabitLogFrom | Soluna/Core/Repositories/HabitLogRepository.swift:79-87 | a read-back log carries the document id and the stored count, or 0 when that is missing |
| HabitLogRepository.InsertKeepsListing | Soluna/Core/Repositories/HabitLogRepository.swift:76-87 | adding one more document to the newest-first listing keeps it listing exactly the documents seen |
| HabitLogRepository.Window | Soluna/Core/Repositories/HabitLogRepository.swift:72-75 | the query selects exactly the habit's documents dated in [lo, hi) |
| HabitLogRepository.NotDoneWhenKeyMissing | Soluna/Core/Repositories/HabitLogRepository.swift:104-113 | a day of the window whose key was not collected has no record of the habit |
| HabitLogRepository.KeyInDaysIsInWindow | Soluna/Core/Repositories/HabitLogRepository.swift:104-113 | a collected key belongs to a day of the window, and that day has a record of the habit |
| HabitLogRepository.WindowBounds | Soluna/Core/Repositories/HabitLogRepository.swift:94-100 | the streak's window runs from the start of the day `lookbackDays` back to the start of tomorrow |
| HabitLogRepository.HabitLogStore.TickCapped | Soluna/Core/Repositories/HabitLogRepository.swift:43-68 | the result and the new store are those of `TickOutcome` on the old store |
| HabitLogRepository.HabitLogStore.TodayCounts | Soluna/Core/Repositories/HabitLogRepository.swift:26-40 | the keys are exactly the habit ids (or "" when missing) of the documents dated today. Each value is the count (0 when missing) of such a document. With well-keyed documents, it is the habit's counter for today |
| HabitLogRepository.HabitLogStore.Logs | Soluna/Core/Repositories/HabitLogRepository.swift:71-88 | lists each of the habit's documents dated in [startOfDay(from), startOfDay(to)) exactly once, mapped with the defaults, newest first |
| HabitLogRepository.HabitLogStore.Query | Soluna/Core/Repositories/HabitLogRepository.swift:72-87 | the range query lists exactly the window's documents, sorted newest first |
| HabitLogRepository.HabitLogStore.DayKeys | Soluna/Core/Repositories/HabitLogRepository.swift:104-109 | the collected set is exactly the day keys of the window's documents |
| HabitLogRepository.HabitLogStore.Streak | Soluna/Core/Repositories/HabitLogRepository.swift:93-118 | the streak is between 0 and lookbackDays+1. Every one of the streak's days, ending today, has a record. Unless capped by the window, the day before the run has none, so the streak is 0 when today has none. A record counts whatever its count |
| HabitLogRepository.HabitLogStore.CountBack | Soluna/Core/Repositories/HabitLogRepository.swift:111-117 | the loop counts back from today while the day's key was collected, with the same bound and run property as `Streak` |
| RoutineRepository.RoutineDefaults | Soluna/Core/Repositories/RoutineRepository.swift:243-261 | a routine document with no fields reads as an untitled, active, every-weekday morning routine with no steps and order 0 |
| RoutineRepository.RoutineReadsBack | Soluna/Core/Repositories/RoutineRepository.swift:243-261 | `RoutineFrom`, the model of `routineFrom`: a document holding every field reads back as the routine it stores |
| RoutineRepository.StepDefaults | Soluna/Core/Repositories/RoutineRepository.swift:263-272 | `StepFrom`, the model of `stepFrom`: a step document with no fields reads as an untitled, required step at order 0 with no habit |
| RoutineRepository.StepReadsBack | Soluna/Core/Repositories/RoutineRepository.swift:263-272 | a step document holding every field reads back as the step it stores |
| RoutineRepository.LogDefaults | Soluna/Core/Repositories/RoutineRepository.swift:274-285 | `LogFrom`, the model of `logFrom`: a log document with no fields reads as an empty, incomplete log of no routine, dated at the current instant |
| RoutineRepository.CreatedRoutineReadsBack | Soluna/Core/Repositories/RoutineRepository.swift:32-43 | a created routine reads back with the given fields, active, and with no steps |
| RoutineRepository.AddedStepReadsBack | Soluna/Core/Repositories/RoutineRepository.swift:71-76 | an added step reads back with its title, habit and order, and not optional |
| RoutineRepository.LogReadsBack | Soluna/Core/Repositories/RoutineRepository.swift:274-285 | a written log reads back as itself |
| RoutineRepository.MergeRoutineOverrides | Soluna/Core/Repositories/RoutineRepository.swift:48-52 | `MergeRoutine`, `updateData` on a routine: an empty patch changes nothing. A field the patch carries replaces the stored one, and the others stay |
| RoutineRepository.StepsTotalReadsCount | Soluna/Core/Repositories/RoutineRepository.swift:188 | `StepsTotalOf`: the count a transaction reads is the count the mapper shows for the routine, and 0 when the routine is missing |
| RoutineRepository.MergeLogOverrides | Soluna/Core/Repositories/RoutineRepository.swift:121-125 | `MergeLog`, `updateData` on a log: an empty payload changes nothing, a payload with every field replaces the log, and a carried field wins while a missing one keeps the stored value |
| RoutineRepository.Bump | Soluna/Core/Repositories/RoutineRepository.swift:79-84 | the step count read back goes up by exactly delta (from 0 when missing). No other field changes |
| RoutineRepository.FirstIndex | Soluna/Core/Repositories/RoutineRepository.swift:111 | none exactly when the id is absent. Otherwise the first position holding it |
| RoutineRepository.RemoveFirst | Soluna/Core/Repositories/RoutineRepository.swift:110-113 | removes one occurrence of the id when present, and changes nothing otherwise |
| RoutineRepository.Toggled | Soluna/Core/Repositories/RoutineRepository.swift:205-209 | removes one occurrence of the id when present, or appends it at the end when absent |
| RoutineRepository.ToggleFlips | Soluna/Core/Repositories/RoutineRepository.swift:205-209 | with no duplicates, the step is in the list after the toggle exactly when it was not before |
| RoutineRepository.ToggleKeepsOthers | Soluna/Core/Repositories/RoutineRepository.swift:205-209 | every other id keeps its membership |
| RoutineRepository.ToggleKeepsNoDuplicates | Soluna/Core/Repositories/RoutineRepository.swift:205-209 | a toggle keeps the list free of duplicates |
| RoutineRepository.ToggleTwice | Soluna/Core/Repositories/RoutineRepository.swift:205-209 | toggling the same id twice gives back the same ids with the same multiplicities and length. An id that was absent gives back the very same list |
| RoutineRepository.RemoveFirstRemoves | Soluna/Core/Repositories/RoutineRepository.swift:110-113 | with no duplicates, removing an id leaves it out, keeps the others, and keeps the list duplicate-free |
| RoutineRepository.NoDuplicatesCount | Soluna/Core/Repositories/RoutineRepository.swift:205-209 | in a duplicate-free list every id occurs at most once |
| RoutineRepository.CountedOnceNoDuplicates | Soluna/Core/Repositories/RoutineRepository.swift:205-209 | a list in which every id occurs at most once has no duplicates |
| RoutineRepository.ToggleOn | Soluna/Core/Repositories/RoutineRepository.swift:172-233 | the returned log has the log id, routine and start of day, and the routine's step count (0 when missing) as its total. Its flag is `total > 0 && count >= total`. Other ids keep their membership. With no duplicates before, the step flips and the list stays duplicate-free. That same log is written, and no other log changes |
| RoutineRepository.ToggleOnTwice | Soluna/Core/Repositories/RoutineRepository.swift:205-210 | two toggles of the same step with an unchanged step count restore the completed ids and the completion flag |
| RoutineRepository.FixLog | Soluna/Core/Repositories/RoutineRepository.swift:105-131 | nothing when the log is absent. Otherwise the step leaves the completed list and the total becomes the new step count. The flag is recomputed with the same formula. Routine, date and every other log stay |
| RoutineRepository.WellFormedLogReads | Soluna/Core/Models/Routine.swift:35-43 | a well-formed stored log reads back with its `routineId_dayKey` id, a start-of-day date and the derived completion flag |
| RoutineRepository.ToggleKeepsLogsWellFormed | Soluna/Core/Repositories/RoutineRepository.swift:205-233 | the toggle keeps every log well formed: its id, start-of-day date, derived flag and duplicate-free list |
| RoutineRepository.TodayLogId | Soluna/Core/Repositories/RoutineRepository.swift:172-174 | the log addressed for a date is the one for its start of day |
| RoutineRepository.FixKeepsLogsWellFormed | Soluna/Core/Repositories/RoutineRepository.swift:105-131 | the log repair of `deleteStep` keeps every log well formed |
| RoutineRepository.AddStepKeepsCounts | Soluna/Core/Repositories/RoutineRepository.swift:70-84 | adding a new step and raising the count keeps every routine's count equal to its number of stored steps |
| RoutineRepository.DeleteStepKeepsCounts | Soluna/Core/Repositories/RoutineRepository.swift:91-97 | deleting a stored step and lowering the count keeps the counts equal to the stored steps |
| RoutineRepository.DeleteMissingStepMiscounts | Soluna/Core/Repositories/RoutineRepository.swift:91-97 | lowering the count for a step that is not stored leaves the count one below the stored steps |
| RoutineRepository.DeleteKeepsCounts | Soluna/Core/Repositories/RoutineRepository.swift:54-60 | deleting a routine with all its steps keeps the other counts right |
| RoutineRepository.CreateKeepsCounts | Soluna/Core/Repositories/RoutineRepository.swift:32-44 | a new routine with count 0 and no steps keeps the counts right |
| RoutineRepository.LastIndex | Soluna/Core/Repositories/RoutineRepository.swift:162-164 | the last position of an id in the new order, or -1 when it is not listed |
| RoutineRepository.LastIndexOfDistinct | Soluna/Core/Repositories/RoutineRepository.swift:162-164 | in a list without repeats, the step at position i gets order i |
| RoutineRepository.Reordered | Soluna/Core/Repositories/RoutineRepository.swift:160-166 | the same step documents. A listed step of the routine gets its position as its order. Every other step is untouched |
| RoutineRepository.OrderedRoutineIds | Soluna/Core/Repositories/RoutineRepository.swift:135 | `order(by:)` returns exactly the routines that have an order field |
| RoutineRepository.InsertKeepsRoutines | Soluna/Core/Repositories/RoutineRepository.swift:134-137 | adding one more routine to the ordered listing keeps it listing exactly the routines seen |
| RoutineRepository.StepsUnder | Soluna/Core/Repositories/RoutineRepository.swift:12-14 | the steps collection of a routine holds exactly the steps stored under it |
| RoutineRepository.OrderedStepIds | Soluna/Core/Repositories/RoutineRepository.swift:140 | `order(by:)` returns exactly the steps that have an order field |
| RoutineRepository.InsertKeepsSteps | Soluna/Core/Repositories/RoutineRepository.swift:139-142 | adding one more step to the ordered listing keeps it listing exactly the steps seen |
| RoutineRepository.LogsDated | Soluna/Core/Repositories/RoutineRepository.swift:147-149 | the query selects exactly the logs dated at the given instant |
| RoutineRepository.OrderSteps | Soluna/Core/Repositories/RoutineRepository.swift:139-142 | lists each step that has an order field exactly once, mapped with the defaults, by ascending order |
| RoutineRepository.RoutineStore.Create | Soluna/Core/Repositories/RoutineRepository.swift:21-46 | stores the new document under the new id, active and with step count 0, and returns the id. Nothing else changes |
| RoutineRepository.RoutineStore.Update | Soluna/Core/Repositories/RoutineRepository.swift:48-52 | fails with `NotFound` exactly when the routine is missing, changing nothing. Otherwise merges the fields into it |
| RoutineRepository.RoutineStore.Delete | Soluna/Core/Repositories/RoutineRepository.swift:54-60 | removes every step of the routine and the routine. The logs stay |
| RoutineRepository.RoutineStore.AddStep | Soluna/Core/Repositories/RoutineRepository.swift:63-86 | writes the step under the new id with the given order, not optional. Then it raises the routine's count by exactly one, or fails with `NotFound` when the routine is missing, with the step still written |
| RoutineRepository.RoutineStore.DeleteStep | Soluna/Core/Repositories/RoutineRepository.swift:89-132 | removes the step and lowers the count by one, or fails with `NotFound`. Then it repairs today's log as `FixLog` states, reading the lowered count |
| RoutineRepository.RoutineStore.StageOrder | Soluna/Core/Repositories/RoutineRepository.swift:161-165 | the staged batch holds each listed step id with its last position in the list, and it can commit exactly when every listed step exists |
| RoutineRepository.RoutineStore.ReorderSteps | Soluna/Core/Repositories/RoutineRepository.swift:160-168 | when every listed step exists, the steps become `Reordered`. Otherwise nothing changes and the call fails with `NotFound`. It succeeds exactly when the steps and the routine exist |
| RoutineRepository.RoutineStore.ToggleStepToday | Soluna/Core/Repositories/RoutineRepository.swift:171-240 | the returned log and the new logs are those of `ToggleOn` on the routine's log for the start of the day. Routines and steps stay |
| RoutineRepository.RoutineStore.ToggleAt | Soluna/Core/Repositories/RoutineRepository.swift:179-232 | the transaction on a given log id and day: the returned log and the new logs are those of `ToggleOn` with the routine's stored step count. Routines and steps stay |
| RoutineRepository.RoutineStore.FetchAll | Soluna/Core/Repositories/RoutineRepository.swift:134-137 | lists each routine that has an order field exactly once, mapped with the defaults, by ascending order |
| RoutineRepository.RoutineStore.FetchSteps | Soluna/Core/Repositories/RoutineRepository.swift:139-142 | lists each of the routine's steps that has an order field exactly once, mapped with the defaults, by ascending order |
| RoutineRepository.RoutineStore.FetchTodayLogs | Soluna/Core/Repositories/RoutineRepository.swift:145-158 | the keys are exactly the routine ids (or "" when missing) of the logs dated today. Each value is such a log, read back. With well-formed logs, it is the routine's `routineId_dayKey` log |
| RoutineViewModel.ProgressAgreesWithLog | Soluna/Features/Routines/RoutineVM.swift:37-42 | `ProgressOf`, the model of `progress(for:)`: without a log the ring shows 0 of `stepsCount`, not done. Done holds exactly when `count >= total > 0`. With a log that keeps its conventions and counts the current steps, done is the log's completion flag |
| RoutineViewModel.HourOf | Soluna/Features/Routines/RoutineVM.swift:103 | the reminder's hour is in 0..23 |
| RoutineViewModel.MinuteOf | Soluna/Features/Routines/RoutineVM.swift:103 | the reminder's minute is in 0..59 |
| RoutineViewModel.ClockFieldsRebuild | Soluna/Features/Routines/RoutineVM.swift:103 | day start, hour, minute and second put back together give the instant |
| RoutineViewModel.SortedDays | Soluna/Features/Routines/RoutineVM.swift:107 | the selected days in strictly increasing order, each exactly once |
| RoutineViewModel.WithoutId | Soluna/Features/Routines/RoutineVM.swift:139 | keeps exactly the routines with another id. With no routine of that id, the list is unchanged |
| RoutineViewModel.WithoutIdSingle | Soluna/Features/Routines/RoutineVM.swift:139 | a one-routine list keeps its routine exactly when the id differs |
| RoutineViewModel.WithoutIdAppend | Soluna/Features/Routines/RoutineVM.swift:139 | removing by id distributes over concatenation, so the kept routines keep their order and their repeats |
| RoutineViewModel.StepIds | Soluna/Features/Routines/RoutineVM.swift:87 | the ids of the listed steps, position by position |
| RoutineViewModel.NextStepOrder | Soluna/Features/Routines/RoutineVM.swift:59 | the number of cached steps of the routine, or 0 when none are cached |
| RoutineViewModel.RoutineVM.Load | Soluna/Features/Routines/RoutineVM.swift:14-34 | the cache becomes what the fetches return: the routines and one step list per listed routine, each listing its items once in ascending order, and today's logs by routine |
| RoutineViewModel.RoutineVM.ToggleStep | Soluna/Features/Routines/RoutineVM.swift:45-53 | the store's toggle happens, and its log is cached under the routine id. On failure `error` is set and the maps stay |
| RoutineViewModel.RoutineVM.AddStep | Soluna/Features/Routines/RoutineVM.swift:56-69 | adds the step with order = the cached count. On success the routine's steps, the routines and today's logs are fetched again (each list once per item, in ascending order), and other step lists stay. On failure `error` is set and the cache stays |
| RoutineViewModel.RoutineVM.DeleteStep | Soluna/Features/Routines/RoutineVM.swift:71-81 | deletes the step in the store. On success the same three fetches follow. On failure `error` is set and the cache stays |
| RoutineViewModel.RoutineVM.Reorder | Soluna/Features/Routines/RoutineVM.swift:84-92 | reorders by the listed steps' ids. On success the routine's steps are fetched again, each once, by ascending order. On failure `error` is set and the step lists stay |
| RoutineViewModel.RoutineVM.CreateRoutine | Soluna/Features/Routines/RoutineVM.swift:94-133 | creates the routine with the sorted days, the reminder's hour and minute, and order = the previous count. Exactly one routine is appended: active, with no steps, equal to what the store reads back. Existing entries stay |
| RoutineViewModel.RoutineVM.DeleteRoutine | Soluna/Features/Routines/RoutineVM.swift:135-145 | deletes the routine in the store, then removes every cached routine with that id and both of its cache entries |
| RoutineViewModel.RoutineVM.Refetch | Soluna/Features/Routines/RoutineVM.swift:61-65 | the routine's steps, the routines and today's logs become what the fetches return: every step and routine once, by ascending order, and today's logs by routine. Other step lists stay |
| RoutineViewModel.RoutineVM.FetchStepsOf | Soluna/Features/Routines/RoutineVM.swift:23-27 | one step list for each listed routine, listing each of its ordered steps once by ascending order, and no other entries |

## Left out

- **Backend concurrency.** Firestore's retries, conflicts and concurrency are not modelled:
  - the race between the read and the write in `tickCapped`;
  - the non-atomic pairs: the step write and the count update in `addStep`, and in `deleteStep`;
  - the step deletions and the routine deletion in `delete`.
  Each operation is one atomic step.
- **Time zones and daylight saving.** `Calendar.current`, time zones and daylight saving time are outside the model. Days are exactly 86400 seconds on one fixed local clock. So `addingTimeInterval(24*3600)` in `streak` (HabitLogRepository.swift:100) and `date(byAdding: .day)` coincide here, though they differ on a daylight-saving day.
- **Two calendars for keys.** `DayKey.startOfDay` and `HabitLogRepository.dayKey` (HabitLogRepository.swift:16-19) read the device's calendar, while `DayKey.key` formats in the fixed Gregorian calendar. The model uses one Gregorian calendar for all three, so a device set to another calendar is not modelled: there `dayKey` gives that calendar's year (2569 in the Buddhist calendar where `key` gives 2026), and the two keys differ.
- **Julian dates and eras.** Foundation's Julian calendar before 1582 and its era-based year numbering are not modelled. Years are proleptic Gregorian and astronomical, and `%04d` of a negative year prints a minus sign.
- **Other format letters.** Format pattern letters other than `y`, `M` and `d`, and printf conversions other than `%0Nd`, are outside the model.
- **Timestamps.** The `createdAt`/`updatedAt` timestamps are not modelled, including the `updatedAt` written by `update`, `addStep`, `deleteStep` and `reorderSteps`.
- **Integer width.** Counts are unbounded integers. The Int64 increments and Int overflow are not modelled.
- **The progress ratio.** `progress(for:)` returns a floating-point `ratio`, which is not modelled. The model keeps `count`, `total` and `done`.
- **Errors.** The message text of errors is not modelled; the view model records the error kind in `error`. A failure of a refetch after a successful repository call is not modelled.
- **Load failing midway.** A `load` that fails partway through is not modelled. The model's `load` either fails at its first fetch or completes.
- **Query ordering.** `order(by:)` leaves out documents without the ordered field; the model does the same. Firestore returns documents with the same key ordered by document id; the model leaves the order of such ties open.
- **Undefined habits operation.** `HabitVM` calls a habit-log `tick` operation that the repository does not define. Its views, services and the other repositories are not part of this model.
- **Unchecked routine fields.** `daysOfWeek` and `timeOfDay` are stored as given. The code does not check that days are in 1..7, and neither does the model.
- RoutineViewModel.RoutineVM.Load: states the keys of today's logs but not each cached log's value.
- RoutineViewModel.RoutineVM.AddStep: states the keys of today's logs but not each cached log's value.
- RoutineViewModel.RoutineVM.DeleteStep: states the keys of today's logs but not each cached log's value.
- RoutineViewModel.RoutineVM.Refetch: states the keys of today's logs but not each cached log's value.
