/**
 * RoutineRepository: a user's routines, each routine's steps and the
 * per-day routine logs, as three document collections. Every stored field
 * may be missing (`None`); the mappers fill in the defaults when reading.
 */
module RoutineRepository {

  import opened Wrappers
  import opened Calendar
  import opened DayKey
  import opened Models
  import opened Listing

  datatype StoreError =
    | /** an update addressed a document that does not exist */ NotFound
    | /** the backend could not be reached */ Unavailable

  datatype RoutineDoc = RoutineDoc(
    title: Option<string>,
    isActive: Option<bool>,
    daysOfWeek: Option<seq<int>>,
    timeOfDay: Option<string>,
    reminderHour: Option<int>,
    reminderMinute: Option<int>,
    stepsCount: Option<int>,
    order: Option<int>)

  datatype StepDoc = StepDoc(title: Option<string>, habitId: Option<string>, order: Option<int>, isOptional: Option<bool>)

  datatype LogDoc = LogDoc(
    routineId: Option<string>,
    date: Option<Instant>,
    completedStepIds: Option<seq<string>>,
    stepsTotal: Option<int>,
    isCompleted: Option<bool>)

  /** A step document's path: the routine it is under, then its own id. */
  type StepKey = (string, string)

  // ---------------------------------------------------------------- mappers

  /** `routineFrom`: each missing field takes its default. */
  function RoutineFrom(id: string, d: RoutineDoc): Routine {
    Routine(id, d.title.GetOr(""), d.isActive.GetOr(true), d.daysOfWeek.GetOr(AllWeekdays),
            d.timeOfDay.GetOr("morning"), d.reminderHour, d.reminderMinute,
            d.stepsCount.GetOr(0), d.order.GetOr(0))
  }

  /** `stepFrom`. */
  function StepFrom(id: string, d: StepDoc): RoutineStep {
    RoutineStep(id, d.title.GetOr(""), d.habitId, d.order.GetOr(0), d.isOptional.GetOr(false))
  }

  /** `logFrom`; a missing date reads as the current instant `now`. */
  function LogFrom(id: string, d: LogDoc, now: Instant): RoutineLog {
    RoutineLog(id, d.routineId.GetOr(""), d.date.GetOr(now), d.completedStepIds.GetOr([]),
               d.stepsTotal.GetOr(0), d.isCompleted.GetOr(false))
  }

  const EmptyRoutineDoc := RoutineDoc(None, None, None, None, None, None, None, None)

  /** A routine document with no fields reads as an active, every-day morning routine with no steps. */
  lemma RoutineDefaults(id: string)
    ensures var r := RoutineFrom(id, EmptyRoutineDoc);
      && r.title == "" && r.isActive && r.daysOfWeek == AllWeekdays && r.timeOfDay == "morning"
      && r.reminderHour.None? && r.reminderMinute.None? && r.stepsCount == 0 && r.order == 0
      && forall n :: n in r.daysOfWeek <==> IsWeekday(n)
  {
    AllWeekdaysExactly();
  }

  /** The document holding every field of a routine. */
  function RoutineDocOf(r: Routine): RoutineDoc {
    RoutineDoc(Some(r.title), Some(r.isActive), Some(r.daysOfWeek), Some(r.timeOfDay),
               r.reminderHour, r.reminderMinute, Some(r.stepsCount), Some(r.order))
  }

  /** A document holding every field reads back as the routine it stores. */
  lemma RoutineReadsBack(r: Routine)
    ensures RoutineFrom(r.id, RoutineDocOf(r)) == r
  {
  }

  /** A step document with no fields reads as an untitled, required step at order 0 with no habit. */
  lemma StepDefaults(id: string)
    ensures StepFrom(id, StepDoc(None, None, None, None)) == RoutineStep(id, "", None, 0, false)
  {
  }

  /** The document holding every field of a step. */
  function StepDocOf(s: RoutineStep): StepDoc {
    StepDoc(Some(s.title), s.habitId, Some(s.order), Some(s.isOptional))
  }

  /** A document holding every field reads back as the step it stores. */
  lemma StepReadsBack(s: RoutineStep)
    ensures StepFrom(s.id, StepDocOf(s)) == s
  {
  }

  /** A log document with no fields reads as an empty, incomplete log of no routine, dated `now`. */
  lemma LogDefaults(id: string, now: Instant)
    ensures LogFrom(id, LogDoc(None, None, None, None, None), now) == RoutineLog(id, "", now, [], 0, false)
  {
  }

  /** The document `create` writes. */
  function NewRoutineDoc(title: string, daysOfWeek: seq<int>, timeOfDay: string,
                         reminderHour: Option<int>, reminderMinute: Option<int>, order: int): RoutineDoc {
    RoutineDoc(Some(title), Some(true), Some(daysOfWeek), Some(timeOfDay), reminderHour, reminderMinute, Some(0), Some(order))
  }

  /** Reading back a created routine gives the arguments, active and with no steps. */
  lemma CreatedRoutineReadsBack(id: string, title: string, daysOfWeek: seq<int>, timeOfDay: string,
                                reminderHour: Option<int>, reminderMinute: Option<int>, order: int)
    ensures var r := RoutineFrom(id, NewRoutineDoc(title, daysOfWeek, timeOfDay, reminderHour, reminderMinute, order));
      r == Routine(id, title, true, daysOfWeek, timeOfDay, reminderHour, reminderMinute, 0, order)
  {
  }

  /** The document `addStep` writes. */
  function NewStepDoc(title: string, habitId: Option<string>, order: int): StepDoc {
    StepDoc(Some(title), habitId, Some(order), Some(false))
  }

  /** Reading back an added step gives its title, habit and order, not optional. */
  lemma AddedStepReadsBack(id: string, title: string, habitId: Option<string>, order: int)
    ensures StepFrom(id, NewStepDoc(title, habitId, order)) == RoutineStep(id, title, habitId, order, false)
  {
  }

  /** The document a toggle writes for a log. */
  function LogDocOf(log: RoutineLog): LogDoc {
    LogDoc(Some(log.routineId), Some(log.date), Some(log.completedStepIds), Some(log.stepsTotal), Some(log.isCompleted))
  }

  /** A written log reads back as itself, whatever `now` is. */
  lemma LogReadsBack(log: RoutineLog, now: Instant)
    ensures LogFrom(log.id, LogDocOf(log), now) == log
  {
  }

  /** `updateData`: each field the patch carries replaces the stored one. */
  function MergeRoutine(d: RoutineDoc, patch: RoutineDoc): RoutineDoc {
    RoutineDoc(
      if patch.title.Some? then patch.title else d.title,
      if patch.isActive.Some? then patch.isActive else d.isActive,
      if patch.daysOfWeek.Some? then patch.daysOfWeek else d.daysOfWeek,
      if patch.timeOfDay.Some? then patch.timeOfDay else d.timeOfDay,
      if patch.reminderHour.Some? then patch.reminderHour else d.reminderHour,
      if patch.reminderMinute.Some? then patch.reminderMinute else d.reminderMinute,
      if patch.stepsCount.Some? then patch.stepsCount else d.stepsCount,
      if patch.order.Some? then patch.order else d.order)
  }

  /** An empty patch changes nothing, and a patch's fields win over the stored ones. */
  lemma MergeRoutineOverrides(d: RoutineDoc, patch: RoutineDoc)
    ensures MergeRoutine(d, EmptyRoutineDoc) == d
    ensures var m := MergeRoutine(d, patch);
      && (patch.title.Some? ==> m.title == patch.title) && (patch.title.None? ==> m.title == d.title)
      && (patch.stepsCount.Some? ==> m.stepsCount == patch.stepsCount)
      && (patch.stepsCount.None? ==> m.stepsCount == d.stepsCount)
      && (patch.order.Some? ==> m.order == patch.order) && (patch.order.None? ==> m.order == d.order)
  {
  }

  /** `FieldValue.increment(delta)` on `stepsCount`: a missing count counts as 0. */
  function Bump(d: RoutineDoc, delta: int): (r: RoutineDoc)
    ensures RoutineFrom("", r).stepsCount == RoutineFrom("", d).stepsCount + delta
    ensures r.(stepsCount := d.stepsCount) == d
  {
    d.(stepsCount := Some(d.stepsCount.GetOr(0) + delta))
  }

  // ------------------------------------------------- the completed-step list

  /** The position of the first occurrence, if any. */
  function FirstIndex(s: seq<string>, x: string): (r: Option<nat>)
    ensures r.None? <==> x !in s
    ensures r.Some? ==> r.value < |s| && s[r.value] == x && x !in s[..r.value]
  {
    if s == [] then None
    else if s[0] == x then Some(0)
    else
      match FirstIndex(s[1..], x)
      case None => None
      case Some(i) =>
        assert s[..i + 1] == [s[0]] + s[1..][..i];
        Some(i + 1)
  }

  /** The list without the first occurrence of x; the list as is when x does not occur. */
  function RemoveFirst(s: seq<string>, x: string): (r: seq<string>)
    ensures x !in s ==> r == s
    ensures x in s ==> |r| == |s| - 1 && multiset(r) == multiset(s) - multiset{x}
  {
    match FirstIndex(s, x)
    case None => s
    case Some(i) =>
      assert s == s[..i] + [s[i]] + s[i + 1..];
      s[..i] + s[i + 1..]
  }

  /** The toggle: remove the first occurrence of x, or append x when absent. */
  function Toggled(s: seq<string>, x: string): (r: seq<string>)
    ensures x in s ==> |r| == |s| - 1 && multiset(r) == multiset(s) - multiset{x}
    ensures x !in s ==> |r| == |s| + 1 && multiset(r) == multiset(s) + multiset{x} && r[|s|] == x
  {
    match FirstIndex(s, x)
    case Some(i) => RemoveFirst(s, x)
    case None => s + [x]
  }

  lemma NoDuplicatesCount(s: seq<string>, x: string)
    requires NoDuplicates(s)
    ensures multiset(s)[x] <= 1
    decreases |s|
  {
    if s != [] {
      NoDuplicatesCount(s[1..], x);
      assert s == [s[0]] + s[1..];
      assert s[0] !in s[1..];
    }
  }

  lemma CountedOnceNoDuplicates(s: seq<string>)
    requires forall x :: multiset(s)[x] <= 1
    ensures NoDuplicates(s)
  {
    forall i, j | 0 <= i < j < |s|
      ensures s[i] != s[j]
    {
      if s[i] == s[j] {
        RepeatCountsTwice(s, i, j);
      }
    }
  }

  /** An element at two positions occurs at least twice. */
  lemma RepeatCountsTwice(s: seq<string>, i: int, j: int)
    requires 0 <= i < j < |s| && s[i] == s[j]
    ensures multiset(s)[s[i]] >= 2
  {
    assert s == s[..i] + [s[i]] + s[i + 1..j] + [s[j]] + s[j + 1..];
  }

  /** With no duplicates, a toggle puts x in exactly when it was not there. */
  lemma ToggleFlips(s: seq<string>, x: string)
    requires NoDuplicates(s)
    ensures x in Toggled(s, x) <==> x !in s
  {
    NoDuplicatesCount(s, x);
    var r := Toggled(s, x);
    assert x in r <==> multiset(r)[x] > 0;
  }

  /** A toggle leaves every other id's membership alone. */
  lemma ToggleKeepsOthers(s: seq<string>, x: string, y: string)
    requires y != x
    ensures y in Toggled(s, x) <==> y in s
  {
    var r := Toggled(s, x);
    assert y in r <==> multiset(r)[y] > 0;
    assert y in s <==> multiset(s)[y] > 0;
  }

  /** A toggle keeps the list duplicate-free: it only appends an absent id. */
  lemma ToggleKeepsNoDuplicates(s: seq<string>, x: string)
    requires NoDuplicates(s)
    ensures NoDuplicates(Toggled(s, x))
  {
    var r := Toggled(s, x);
    forall y ensures multiset(r)[y] <= 1 {
      NoDuplicatesCount(s, y);
      assert x !in s ==> multiset(s)[x] == 0;
    }
    CountedOnceNoDuplicates(r);
  }

  /**
   * Toggling twice restores the same ids and the same count (so the same
   * completion flag); when the id was absent it restores the list itself.
   */
  lemma ToggleTwice(s: seq<string>, x: string)
    requires NoDuplicates(s)
    ensures multiset(Toggled(Toggled(s, x), x)) == multiset(s)
    ensures |Toggled(Toggled(s, x), x)| == |s|
    ensures forall y :: y in Toggled(Toggled(s, x), x) <==> y in s
    ensures x !in s ==> Toggled(Toggled(s, x), x) == s
  {
    var once := Toggled(s, x);
    ToggleFlips(s, x);
    var twice := Toggled(once, x);
    if x !in s {
      assert FirstIndex(once, x) == Some(|s|);
      assert once[..|s|] == s;
    }
    forall y ensures y in twice <==> y in s {
      assert y in twice <==> multiset(twice)[y] > 0;
      assert y in s <==> multiset(s)[y] > 0;
    }
  }

  /** What a toggle does to membership, in one statement. */
  lemma ToggleSummary(s: seq<string>, x: string)
    ensures forall y :: y != x ==> (y in Toggled(s, x) <==> y in s)
    ensures NoDuplicates(s) ==> NoDuplicates(Toggled(s, x)) && (x in Toggled(s, x) <==> x !in s)
  {
    forall y | y != x ensures y in Toggled(s, x) <==> y in s {
      ToggleKeepsOthers(s, x, y);
    }
    if NoDuplicates(s) {
      ToggleKeepsNoDuplicates(s, x);
      ToggleFlips(s, x);
    }
  }

  /** With no duplicates, the log fix leaves the id out for good and keeps the list duplicate-free. */
  lemma RemoveFirstRemoves(s: seq<string>, x: string)
    requires NoDuplicates(s)
    ensures x !in RemoveFirst(s, x)
    ensures forall y :: y != x ==> (y in RemoveFirst(s, x) <==> y in s)
    ensures NoDuplicates(RemoveFirst(s, x))
  {
    var r := RemoveFirst(s, x);
    NoDuplicatesCount(s, x);
    forall y ensures multiset(r)[y] <= 1 && (y in r <==> multiset(r)[y] > 0) && (y in s <==> multiset(s)[y] > 0) {
      NoDuplicatesCount(s, y);
    }
    CountedOnceNoDuplicates(r);
  }

  // ------------------------------------------------------ the transactions

  /** The step count a transaction reads from the routine document: 0 when the document or its field is missing. */
  function StepsTotalOf(routines: map<string, RoutineDoc>, routineId: string): int {
    if routineId in routines then routines[routineId].stepsCount.GetOr(0) else 0
  }

  /** `updateData` of a log: each field the payload carries replaces the stored one. */
  function MergeLog(d: LogDoc, payload: LogDoc): LogDoc {
    LogDoc(
      if payload.routineId.Some? then payload.routineId else d.routineId,
      if payload.date.Some? then payload.date else d.date,
      if payload.completedStepIds.Some? then payload.completedStepIds else d.completedStepIds,
      if payload.stepsTotal.Some? then payload.stepsTotal else d.stepsTotal,
      if payload.isCompleted.Some? then payload.isCompleted else d.isCompleted)
  }

  /** The count a transaction reads is the count the mapper shows for the routine, and 0 for a missing routine. */
  lemma StepsTotalReadsCount(routines: map<string, RoutineDoc>, routineId: string)
    ensures routineId in routines ==> StepsTotalOf(routines, routineId) == RoutineFrom(routineId, routines[routineId]).stepsCount
    ensures routineId !in routines ==> StepsTotalOf(routines, routineId) == 0
  {
  }

  /** An empty payload changes nothing, a full one replaces the log, and each carried field wins. */
  lemma MergeLogOverrides(d: LogDoc, payload: LogDoc)
    ensures MergeLog(d, LogDoc(None, None, None, None, None)) == d
    ensures (payload.routineId.Some? && payload.date.Some? && payload.completedStepIds.Some? &&
             payload.stepsTotal.Some? && payload.isCompleted.Some?) ==> MergeLog(d, payload) == payload
    ensures var m := MergeLog(d, payload);
      && (payload.completedStepIds.Some? ==> m.completedStepIds == payload.completedStepIds)
      && (payload.completedStepIds.None? ==> m.completedStepIds == d.completedStepIds)
      && (payload.routineId.None? ==> m.routineId == d.routineId)
      && (payload.date.None? ==> m.date == d.date)
  {
  }

  /**
   * The transaction of `toggleStepToday` on log `logId`: the stored
   * completed list (empty when the log is absent) toggled at `stepId`, the
   * routine's step count as the total, the completion flag derived from
   * both; the same log is written (created or updated) and returned, and no
   * other log changes.
   */
  function ToggleOn(logs: map<string, LogDoc>, logId: string, routineId: string, day: Instant,
                    stepsTotal: int, stepId: string): (out: (RoutineLog, map<string, LogDoc>))
    ensures out.0.id == logId && out.0.routineId == routineId && out.0.date == day
    ensures out.0.stepsTotal == stepsTotal
    ensures out.0.isCompleted == CompletionFor(|out.0.completedStepIds|, stepsTotal)
    ensures var before := if logId in logs then logs[logId].completedStepIds.GetOr([]) else [];
      && (forall y :: y != stepId ==> (y in out.0.completedStepIds <==> y in before))
      && (NoDuplicates(before) ==>
            NoDuplicates(out.0.completedStepIds) && (stepId in out.0.completedStepIds <==> stepId !in before))
    ensures out.1 == logs[logId := LogDocOf(out.0)]
  {
    var existed := logId in logs;
    var before := if existed then logs[logId].completedStepIds.GetOr([]) else [];
    var completed := Toggled(before, stepId);
    var isCompleted := CompletionFor(|completed|, stepsTotal);
    var payload := LogDoc(Some(routineId), Some(day), Some(completed), Some(stepsTotal), Some(isCompleted));
    var log := RoutineLog(logId, routineId, day, completed, stepsTotal, isCompleted);
    ToggleSummary(before, stepId);
    if existed then (log, logs[logId := MergeLog(logs[logId], payload)])
    else (log, logs[logId := payload])
  }

  /**
   * The log repair of `deleteStep` on log `logId`: nothing when the log is
   * absent; otherwise the step's id leaves the completed list, the total
   * becomes the routine's new step count, the completion flag is derived
   * again, and the log's routine and date stay.
   */
  function FixLog(logs: map<string, LogDoc>, logId: string, stepId: string, stepsTotal: int): (r: map<string, LogDoc>)
    ensures logId !in logs ==> r == logs
    ensures logId in logs ==>
      var d := logs[logId];
      && r.Keys == logs.Keys
      && r[logId].routineId == d.routineId && r[logId].date == d.date
      && r[logId].completedStepIds == Some(RemoveFirst(d.completedStepIds.GetOr([]), stepId))
      && r[logId].stepsTotal == Some(stepsTotal)
      && r[logId].isCompleted == Some(CompletionFor(|r[logId].completedStepIds.value|, stepsTotal))
      && (forall k :: k in logs && k != logId ==> r[k] == logs[k])
  {
    if logId !in logs then logs
    else
      var completed := RemoveFirst(logs[logId].completedStepIds.GetOr([]), stepId);
      logs[logId := MergeLog(logs[logId], LogDoc(None, None, Some(completed), Some(stepsTotal),
                                                 Some(CompletionFor(|completed|, stepsTotal))))]
  }

  // ------------------------------------------------------------ invariants

  /** The documented conventions of a stored log document under id k. */
  predicate WellFormedLog(k: string, d: LogDoc) {
    && d.routineId.Some? && d.date.Some? && d.completedStepIds.Some? && d.stepsTotal.Some? && d.isCompleted.Some?
    && k == LogId(d.routineId.value, d.date.value)
    && StartOfDay(d.date.value) == d.date.value
    && d.isCompleted.value == CompletionFor(|d.completedStepIds.value|, d.stepsTotal.value)
    && NoDuplicates(d.completedStepIds.value)
  }

  ghost predicate LogsWellFormed(logs: map<string, LogDoc>) {
    forall k :: k in logs ==> WellFormedLog(k, logs[k])
  }

  /** A well-formed log document reads back as a log that keeps the conventions. */
  lemma WellFormedLogReads(k: string, d: LogDoc, now: Instant)
    requires WellFormedLog(k, d)
    ensures LogConventions(LogFrom(k, d, now))
  {
  }

  /** The toggle transaction on a routine's log for a start of day keeps every log well formed. */
  lemma ToggleKeepsLogsWellFormed(logs: map<string, LogDoc>, logId: string, routineId: string, day: Instant,
                                  stepsTotal: int, stepId: string)
    requires LogsWellFormed(logs)
    requires StartOfDay(day) == day && logId == LogId(routineId, day)
    ensures LogsWellFormed(ToggleOn(logs, logId, routineId, day, stepsTotal, stepId).1)
  {
    if logId in logs {
      assert WellFormedLog(logId, logs[logId]);
    }
  }

  /**
   * Two toggles of the same step with the same step count bring the log's
   * completed ids back to what they were, and with them its completion flag.
   */
  lemma ToggleOnTwice(logs: map<string, LogDoc>, logId: string, routineId: string, day: Instant,
                      stepsTotal: int, stepId: string)
    requires logId in logs ==> NoDuplicates(logs[logId].completedStepIds.GetOr([]))
    ensures var before := if logId in logs then logs[logId].completedStepIds.GetOr([]) else [];
      var first := ToggleOn(logs, logId, routineId, day, stepsTotal, stepId);
      var second := ToggleOn(first.1, logId, routineId, day, stepsTotal, stepId);
      && (forall y :: y in second.0.completedStepIds <==> y in before)
      && multiset(second.0.completedStepIds) == multiset(before)
      && second.0.isCompleted == CompletionFor(|before|, stepsTotal)
      && (logId in logs && logs[logId].isCompleted == Some(CompletionFor(|before|, stepsTotal)) ==>
            Some(second.0.isCompleted) == logs[logId].isCompleted)
  {
    var before := if logId in logs then logs[logId].completedStepIds.GetOr([]) else [];
    var once := Toggled(before, stepId);
    var first := ToggleOn(logs, logId, routineId, day, stepsTotal, stepId);
    assert first.0.completedStepIds == once;
    assert first.1[logId] == LogDocOf(first.0);
    var second := ToggleOn(first.1, logId, routineId, day, stepsTotal, stepId);
    assert second.0.completedStepIds == Toggled(once, stepId);
    ToggleTwice(before, stepId);
  }

  /** The log `toggleStepToday` addresses is the routine's log for the start of the day. */
  lemma TodayLogId(routineId: string, date: Instant)
    ensures StartOfDay(StartOfDay(date)) == StartOfDay(date)
    ensures LogId(routineId, date) == LogId(routineId, StartOfDay(date))
  {
    StartOfDayIdempotent(date);
  }

  /** The log repair of `deleteStep` keeps every log well formed. */
  lemma FixKeepsLogsWellFormed(logs: map<string, LogDoc>, logId: string, stepId: string, stepsTotal: int)
    requires LogsWellFormed(logs)
    ensures LogsWellFormed(FixLog(logs, logId, stepId, stepsTotal))
  {
    if logId in logs {
      assert WellFormedLog(logId, logs[logId]);
      RemoveFirstRemoves(logs[logId].completedStepIds.value, stepId);
    }
  }

  /** The ids of the steps stored under a routine. */
  function StepIdsOf(steps: map<StepKey, StepDoc>, routineId: string): (ids: set<string>)
    ensures forall sid :: sid in ids <==> (routineId, sid) in steps
  {
    set k | k in steps && k.0 == routineId :: k.1
  }

  /** Every routine's `stepsCount` is the number of its stored steps. */
  ghost predicate StepCountsAgree(routines: map<string, RoutineDoc>, steps: map<StepKey, StepDoc>) {
    forall r :: r in routines ==> routines[r].stepsCount == Some(|StepIdsOf(steps, r)|)
  }

  /** Adding a new step to an existing routine and bumping its count keeps the counts right. */
  lemma AddStepKeepsCounts(routines: map<string, RoutineDoc>, steps: map<StepKey, StepDoc>,
                           routineId: string, stepId: string, doc: StepDoc)
    requires StepCountsAgree(routines, steps)
    requires routineId in routines && (routineId, stepId) !in steps
    ensures StepCountsAgree(routines[routineId := Bump(routines[routineId], 1)], steps[(routineId, stepId) := doc])
  {
    var routines', steps' := routines[routineId := Bump(routines[routineId], 1)], steps[(routineId, stepId) := doc];
    forall r | r in routines' ensures routines'[r].stepsCount == Some(|StepIdsOf(steps', r)|)
    {
      AddStepKeepsCountOf(routines[r], steps, routineId, stepId, doc, r);
    }
  }

  /** One routine's count after adding a step: bumped for the step's routine, unchanged for the others. */
  lemma AddStepKeepsCountOf(d: RoutineDoc, steps: map<StepKey, StepDoc>, routineId: string, stepId: string, doc: StepDoc, r: string)
    requires (routineId, stepId) !in steps && d.stepsCount == Some(|StepIdsOf(steps, r)|)
    ensures r == routineId ==> Bump(d, 1).stepsCount == Some(|StepIdsOf(steps[(routineId, stepId) := doc], r)|)
    ensures r != routineId ==> d.stepsCount == Some(|StepIdsOf(steps[(routineId, stepId) := doc], r)|)
  {
    if r == routineId {
      assert StepIdsOf(steps[(routineId, stepId) := doc], r) == StepIdsOf(steps, r) + {stepId};
    } else {
      assert StepIdsOf(steps[(routineId, stepId) := doc], r) == StepIdsOf(steps, r);
    }
  }

  /** Deleting an existing step and lowering its routine's count keeps the counts right. */
  lemma DeleteStepKeepsCounts(routines: map<string, RoutineDoc>, steps: map<StepKey, StepDoc>,
                              routineId: string, stepId: string)
    requires StepCountsAgree(routines, steps)
    requires routineId in routines && (routineId, stepId) in steps
    ensures StepCountsAgree(routines[routineId := Bump(routines[routineId], -1)], steps - {(routineId, stepId)})
  {
    var routines', steps' := routines[routineId := Bump(routines[routineId], -1)], steps - {(routineId, stepId)};
    forall r | r in routines' ensures routines'[r].stepsCount == Some(|StepIdsOf(steps', r)|)
    {
      DeleteStepKeepsCountOf(routines[r], steps, routineId, stepId, r);
    }
  }

  /** One routine's count after deleting a stored step: lowered for the step's routine, unchanged for the others. */
  lemma DeleteStepKeepsCountOf(d: RoutineDoc, steps: map<StepKey, StepDoc>, routineId: string, stepId: string, r: string)
    requires (routineId, stepId) in steps && d.stepsCount == Some(|StepIdsOf(steps, r)|)
    ensures r == routineId ==> Bump(d, -1).stepsCount == Some(|StepIdsOf(steps - {(routineId, stepId)}, r)|)
    ensures r != routineId ==> d.stepsCount == Some(|StepIdsOf(steps - {(routineId, stepId)}, r)|)
  {
    if r == routineId {
      assert StepIdsOf(steps, r) == StepIdsOf(steps - {(routineId, stepId)}, r) + {stepId};
    } else {
      assert StepIdsOf(steps - {(routineId, stepId)}, r) == StepIdsOf(steps, r);
    }
  }

  /** Lowering the count for a step that is not stored breaks the invariant: the count goes one below. */
  lemma DeleteMissingStepMiscounts(routines: map<string, RoutineDoc>, steps: map<StepKey, StepDoc>,
                                   routineId: string, stepId: string)
    requires StepCountsAgree(routines, steps)
    requires routineId in routines && (routineId, stepId) !in steps
    ensures var routines' := routines[routineId := Bump(routines[routineId], -1)];
      routines'[routineId].stepsCount == Some(|StepIdsOf(steps - {(routineId, stepId)}, routineId)| - 1)
  {
    assert steps - {(routineId, stepId)} == steps;
  }

  /** Deleting a routine together with all its steps keeps the counts right. */
  lemma DeleteKeepsCounts(routines: map<string, RoutineDoc>, steps: map<StepKey, StepDoc>, routineId: string)
    requires StepCountsAgree(routines, steps)
    ensures StepCountsAgree(routines - {routineId}, map k | k in steps && k.0 != routineId :: steps[k])
  {
    var steps' := map k | k in steps && k.0 != routineId :: steps[k];
    forall r | r in routines - {routineId} ensures StepIdsOf(steps', r) == StepIdsOf(steps, r) {
    }
  }

  /** A freshly created routine with no stored steps keeps the counts right. */
  lemma CreateKeepsCounts(routines: map<string, RoutineDoc>, steps: map<StepKey, StepDoc>, id: string, doc: RoutineDoc)
    requires StepCountsAgree(routines, steps)
    requires StepIdsOf(steps, id) == {} && doc.stepsCount == Some(0)
    ensures StepCountsAgree(routines[id := doc], steps)
  {
  }

  /** The index `batch` leaves as a step's order: the last position it has in the new order. */
  function LastIndex(s: seq<string>, x: string): (r: int)
    ensures x !in s ==> r == -1
    ensures x in s ==> 0 <= r < |s| && s[r] == x && x !in s[r + 1..]
    decreases |s|
  {
    if s == [] then -1
    else if s[|s| - 1] == x then |s| - 1
    else
      var r := LastIndex(s[..|s| - 1], x);
      DropLastKeeps(s, x, r);
      r
  }

  /** Dropping a last element other than x keeps x's membership and its suffixes. */
  lemma DropLastKeeps(s: seq<string>, x: string, r: int)
    requires s != [] && s[|s| - 1] != x && -1 <= r < |s| - 1
    ensures x in s <==> x in s[..|s| - 1]
    ensures r >= 0 ==> s[r + 1..] == s[..|s| - 1][r + 1..] + [s[|s| - 1]]
  {
    assert s == s[..|s| - 1] + [s[|s| - 1]];
  }

  lemma InSuffix(s: seq<string>, a: int, i: int)
    requires 0 <= a <= i < |s|
    ensures s[i] in s[a..]
  {
    assert s[a..][i - a] == s[i];
  }

  /** In a list without repeats, the step at position i gets order i. */
  lemma LastIndexOfDistinct(s: seq<string>, i: int)
    requires NoDuplicates(s) && 0 <= i < |s|
    ensures LastIndex(s, s[i]) == i
  {
    var r := LastIndex(s, s[i]);
    if r < i {
      InSuffix(s, r + 1, i);
    }
  }

  /** Applying the staged positions (each listed id at its last index) is the committed reorder batch. */
  lemma StagedIsReordered(steps: map<StepKey, StepDoc>, routineId: string, newOrder: seq<string>, staged: map<string, int>)
    requires forall sid :: sid in staged <==> sid in newOrder
    requires forall sid :: sid in staged ==> staged[sid] == LastIndex(newOrder, sid)
    ensures (map k | k in steps :: if k.0 == routineId && k.1 in staged then steps[k].(order := Some(staged[k.1])) else steps[k])
      == Reordered(steps, routineId, newOrder)
  {
  }

  /** The steps after a committed reorder batch: only the listed steps of the routine get a new order. */
  function Reordered(steps: map<StepKey, StepDoc>, routineId: string, newOrder: seq<string>): (r: map<StepKey, StepDoc>)
    ensures r.Keys == steps.Keys
    ensures forall k :: k in steps && (k.0 != routineId || k.1 !in newOrder) ==> r[k] == steps[k]
    ensures forall i :: 0 <= i < |newOrder| && (routineId, newOrder[i]) in steps && NoDuplicates(newOrder) ==>
      r[(routineId, newOrder[i])] == steps[(routineId, newOrder[i])].(order := Some(i))
  {
    forall i | 0 <= i < |newOrder| && NoDuplicates(newOrder) ensures LastIndex(newOrder, newOrder[i]) == i {
      LastIndexOfDistinct(newOrder, i);
    }
    map k | k in steps ::
      if k.0 == routineId && k.1 in newOrder then steps[k].(order := Some(LastIndex(newOrder, k.1))) else steps[k]
  }

  // ------------------------------------------------------------- queries

  function RoutineOrder(r: Routine): int {
    r.order
  }

  function StepOrder(s: RoutineStep): int {
    s.order
  }

  /** `fetchAll` lists exactly the routine documents that have an order, mapped. */
  ghost predicate ListsRoutines(rs: seq<Routine>, routines: map<string, RoutineDoc>, ids: set<string>)
    requires ids <= routines.Keys
  {
    && (forall r :: r in rs ==> r.id in ids && r == RoutineFrom(r.id, routines[r.id]))
    && (forall id :: id in ids ==> RoutineFrom(id, routines[id]) in rs)
  }

  /** The routines `order(by: "order")` returns: those whose order field is set. */
  function OrderedRoutineIds(routines: map<string, RoutineDoc>): (ids: set<string>)
    ensures forall id :: id in ids <==> id in routines && routines[id].order.Some?
  {
    set id | id in routines && routines[id].order.Some?
  }

  lemma InsertKeepsRoutines(rs: seq<Routine>, routines: map<string, RoutineDoc>, done: set<string>, id: string)
    requires done <= routines.Keys && id in routines
    requires SortedBy(rs, RoutineOrder) && ListsRoutines(rs, routines, done)
    ensures ListsRoutines(InsertBy(RoutineFrom(id, routines[id]), rs, RoutineOrder), routines, done + {id})
  {
    var r := RoutineFrom(id, routines[id]);
    forall x ensures x in InsertBy(r, rs, RoutineOrder) <==> x in rs || x == r {
      InsertByMembers(r, rs, RoutineOrder, x);
    }
  }

  /** The loop state of the ordered routines query. */
  ghost predicate RoutinesQueryState(rs: seq<Routine>, routines: map<string, RoutineDoc>, done: set<string>, pending: set<string>) {
    && done + pending == OrderedRoutineIds(routines) && done !! pending
    && |rs| == |done| && ListsRoutines(rs, routines, done) && SortedBy(rs, RoutineOrder)
  }

  lemma RoutinesQueryStep(rs: seq<Routine>, routines: map<string, RoutineDoc>, done: set<string>, pending: set<string>, id: string)
    requires RoutinesQueryState(rs, routines, done, pending) && id in pending
    ensures RoutinesQueryState(InsertBy(RoutineFrom(id, routines[id]), rs, RoutineOrder), routines, done + {id}, pending - {id})
  {
    InsertKeepsRoutines(rs, routines, done, id);
  }

  /** The step documents under one routine, by step id. */
  function StepsUnder(steps: map<StepKey, StepDoc>, routineId: string): (sub: map<string, StepDoc>)
    ensures forall sid :: sid in sub <==> (routineId, sid) in steps
    ensures forall sid :: sid in sub ==> sub[sid] == steps[(routineId, sid)]
  {
    map k | k in steps && k.0 == routineId :: k.1 := steps[k]
  }

  /** `fetchSteps` lists exactly the given step documents, mapped. */
  ghost predicate ListsSteps(ss: seq<RoutineStep>, sub: map<string, StepDoc>, ids: set<string>)
    requires ids <= sub.Keys
  {
    && (forall s :: s in ss ==> s.id in ids && s == StepFrom(s.id, sub[s.id]))
    && (forall sid :: sid in ids ==> StepFrom(sid, sub[sid]) in ss)
  }

  /** The steps that `order(by: "order")` returns: those whose order field is set. */
  function OrderedStepIds(sub: map<string, StepDoc>): (ids: set<string>)
    ensures forall sid :: sid in ids <==> sid in sub && sub[sid].order.Some?
  {
    set sid | sid in sub && sub[sid].order.Some?
  }

  lemma InsertKeepsSteps(ss: seq<RoutineStep>, sub: map<string, StepDoc>, done: set<string>, sid: string)
    requires done <= sub.Keys && sid in sub
    requires SortedBy(ss, StepOrder) && ListsSteps(ss, sub, done)
    ensures ListsSteps(InsertBy(StepFrom(sid, sub[sid]), ss, StepOrder), sub, done + {sid})
  {
    var s := StepFrom(sid, sub[sid]);
    forall x ensures x in InsertBy(s, ss, StepOrder) <==> x in ss || x == s {
      InsertByMembers(s, ss, StepOrder, x);
    }
  }

  /** The loop state of the ordered steps query: `done` listed once each, in order; `pending` still to go. */
  ghost predicate StepsQueryState(ss: seq<RoutineStep>, sub: map<string, StepDoc>, done: set<string>, pending: set<string>) {
    && done + pending == OrderedStepIds(sub) && done !! pending
    && |ss| == |done| && ListsSteps(ss, sub, done) && SortedBy(ss, StepOrder)
  }

  lemma StepsQueryStep(ss: seq<RoutineStep>, sub: map<string, StepDoc>, done: set<string>, pending: set<string>, sid: string)
    requires StepsQueryState(ss, sub, done, pending) && sid in pending
    ensures StepsQueryState(InsertBy(StepFrom(sid, sub[sid]), ss, StepOrder), sub, done + {sid}, pending - {sid})
  {
    InsertKeepsSteps(ss, sub, done, sid);
  }

  /** The ids of the logs dated at a given instant. */
  function LogsDated(logs: map<string, LogDoc>, day: Instant): (ids: set<string>)
    ensures forall k :: k in ids <==> k in logs && logs[k].date == Some(day)
  {
    set k | k in logs && logs[k].date == Some(day)
  }

  /** The ordered query over one routine's steps. */
  method OrderSteps(sub: map<string, StepDoc>) returns (ss: seq<RoutineStep>)
    ensures |ss| == |OrderedStepIds(sub)|
    ensures ListsSteps(ss, sub, OrderedStepIds(sub))
    ensures SortedBy(ss, StepOrder)
  {
    var pending := OrderedStepIds(sub);
    ghost var done := {};
    ss := [];
    while pending != {}
      invariant StepsQueryState(ss, sub, done, pending)
      decreases pending
    {
      var sid :| sid in pending;
      StepsQueryStep(ss, sub, done, pending, sid);
      ss := InsertBy(StepFrom(sid, sub[sid]), ss, StepOrder);
      done, pending := done + {sid}, pending - {sid};
    }
  }

  /** The store of one user: routines, steps under their routine, routine logs. */
  class RoutineStore {

    var routines: map<string, RoutineDoc>
    var steps: map<StepKey, StepDoc>
    var logs: map<string, LogDoc>

    constructor ()
      ensures routines == map[] && steps == map[] && logs == map[]
    {
      routines, steps, logs := map[], map[], map[];
    }

    /** `create`: a new active routine with no steps under the generated id `newId`. */
    method Create(newId: string, title: string, daysOfWeek: seq<int> := AllWeekdays, timeOfDay: string := "morning",
                  reminderHour: Option<int> := None, reminderMinute: Option<int> := None, order: int := 0)
      returns (id: string)
      modifies this
      ensures id == newId
      ensures routines == old(routines)[newId := NewRoutineDoc(title, daysOfWeek, timeOfDay, reminderHour, reminderMinute, order)]
      ensures steps == old(steps) && logs == old(logs)
    {
      routines := routines[newId := NewRoutineDoc(title, daysOfWeek, timeOfDay, reminderHour, reminderMinute, order)];
      return newId;
    }

    /** `update`: merge the fields into an existing routine; NotFound when there is none. */
    method Update(routineId: string, fields: RoutineDoc) returns (r: Result<(), StoreError>)
      modifies this
      ensures r.Failure? <==> routineId !in old(routines)
      ensures r.Failure? ==> r.error == NotFound && routines == old(routines)
      ensures r.Success? ==> routines == old(routines)[routineId := MergeRoutine(old(routines)[routineId], fields)]
      ensures steps == old(steps) && logs == old(logs)
    {
      if routineId !in routines {
        return Failure(NotFound);
      }
      routines := routines[routineId := MergeRoutine(routines[routineId], fields)];
      return Success(());
    }

    /** `delete`: every step of the routine one by one, then the routine; its logs stay. */
    method Delete(routineId: string)
      modifies this
      ensures routines == old(routines) - {routineId}
      ensures steps == map k | k in old(steps) && k.0 != routineId :: old(steps)[k]
      ensures logs == old(logs)
    {
      var pending := set k | k in steps && k.0 == routineId;
      ghost var done: set<StepKey> := {};
      while pending != {}
        invariant done !! pending
        invariant steps.Keys == old(steps).Keys - done
        invariant forall k :: k in old(steps) && k.0 == routineId ==> k in done + pending
        invariant forall k :: k in done + pending ==> k.0 == routineId
        invariant forall k :: k in steps ==> steps[k] == old(steps)[k]
        invariant routines == old(routines) && logs == old(logs)
        decreases pending
      {
        var k :| k in pending;
        steps := steps - {k};
        done, pending := done + {k}, pending - {k};
      }
      routines := routines - {routineId};
    }

    /**
     * `addStep`: write the step under the generated id `newStepId`, then
     * raise the routine's count by one; when the routine does not exist the
     * step stays written and the call fails with NotFound.
     */
    method AddStep(routineId: string, title: string, habitId: Option<string>, order: int, newStepId: string)
      returns (r: Result<string, StoreError>)
      modifies this
      ensures steps == old(steps)[(routineId, newStepId) := NewStepDoc(title, habitId, order)]
      ensures r.Failure? <==> routineId !in old(routines)
      ensures r.Failure? ==> r.error == NotFound && routines == old(routines)
      ensures r.Success? ==> r.value == newStepId && routines == old(routines)[routineId := Bump(old(routines)[routineId], 1)]
      ensures logs == old(logs)
    {
      steps := steps[(routineId, newStepId) := NewStepDoc(title, habitId, order)];
      if routineId !in routines {
        return Failure(NotFound);
      }
      routines := routines[routineId := Bump(routines[routineId], 1)];
      return Success(newStepId);
    }

    /**
     * `deleteStep`: remove the step, lower the routine's count by one (also
     * when the step was not stored), then repair today's log, the log of the
     * day of `now`. A missing routine fails with NotFound before the repair.
     */
    method DeleteStep(routineId: string, stepId: string, now: Instant) returns (r: Result<(), StoreError>)
      modifies this
      ensures steps == old(steps) - {(routineId, stepId)}
      ensures r.Failure? <==> routineId !in old(routines)
      ensures r.Failure? ==> r.error == NotFound && routines == old(routines) && logs == old(logs)
      ensures r.Success? ==>
        && routines == old(routines)[routineId := Bump(old(routines)[routineId], -1)]
        && logs == FixLog(old(logs), LogId(routineId, now), stepId, StepsTotalOf(routines, routineId))
    {
      steps := steps - {(routineId, stepId)};
      if routineId !in routines {
        return Failure(NotFound);
      }
      routines := routines[routineId := Bump(routines[routineId], -1)];
      var day := StartOfDay(now);
      var key := Key(day);
      var logId := CompositeId(routineId, key);
      if logId in logs {
        var completed := RemoveFirst(logs[logId].completedStepIds.GetOr([]), stepId);
        var stepsTotal := routines[routineId].stepsCount.GetOr(0);
        var isCompleted := CompletionFor(|completed|, stepsTotal);
        logs := logs[logId := MergeLog(logs[logId], LogDoc(None, None, Some(completed), Some(stepsTotal), Some(isCompleted)))];
      }
      return Success(());
    }

    /** The staging half of `reorderSteps`: each listed id with its (last) position, and whether every listed step exists. */
    method StageOrder(routineId: string, newOrder: seq<string>) returns (staged: map<string, int>, allExist: bool)
      ensures allExist <==> forall i :: 0 <= i < |newOrder| ==> (routineId, newOrder[i]) in steps
      ensures forall sid :: sid in staged <==> sid in newOrder
      ensures forall sid :: sid in staged ==> staged[sid] == LastIndex(newOrder, sid)
    {
      staged := map[];
      allExist := true;
      for idx := 0 to |newOrder|
        invariant allExist <==> forall i :: 0 <= i < idx ==> (routineId, newOrder[i]) in steps
        invariant forall sid :: sid in staged <==> sid in newOrder[..idx]
        invariant forall sid :: sid in staged ==> staged[sid] == LastIndex(newOrder[..idx], sid)
      {
        var sid := newOrder[idx];
        assert newOrder[..idx + 1] == newOrder[..idx] + [sid];
        staged := staged[sid := idx];
        allExist := allExist && (routineId, sid) in steps;
      }
      assert newOrder[..|newOrder|] == newOrder;
    }

    /**
     * `reorderSteps`: one batch setting each listed step's order to its
     * position, which fails as a whole with NotFound when a listed step does
     * not exist; then an update of the routine, NotFound when it is missing.
     */
    method ReorderSteps(routineId: string, newOrder: seq<string>) returns (r: Result<(), StoreError>)
      modifies this
      ensures (forall i :: 0 <= i < |newOrder| ==> (routineId, newOrder[i]) in old(steps)) ==>
        steps == Reordered(old(steps), routineId, newOrder)
      ensures !(forall i :: 0 <= i < |newOrder| ==> (routineId, newOrder[i]) in old(steps)) ==>
        steps == old(steps) && r == Failure(NotFound)
      ensures r.Success? <==> (forall i :: 0 <= i < |newOrder| ==> (routineId, newOrder[i]) in old(steps)) && routineId in old(routines)
      ensures r.Failure? ==> r.error == NotFound
      ensures routines == old(routines) && logs == old(logs)
    {
      var staged, allExist := StageOrder(routineId, newOrder);
      if !allExist {
        return Failure(NotFound);
      }
      StagedIsReordered(steps, routineId, newOrder, staged);
      steps := map k | k in steps :: if k.0 == routineId && k.1 in staged then steps[k].(order := Some(staged[k.1])) else steps[k];
      if routineId !in routines {
        return Failure(NotFound);
      }
      return Success(());
    }

    /**
     * `toggleStepToday`: the toggle transaction on the routine's log for the
     * day of `date`, with the routine's current step count as the total.
     */
    method ToggleStepToday(routineId: string, stepId: string, date: Instant) returns (log: RoutineLog)
      modifies this
      ensures (log, logs) == ToggleOn(old(logs), LogId(routineId, date), routineId, StartOfDay(date),
                                      StepsTotalOf(old(routines), routineId), stepId)
      ensures routines == old(routines) && steps == old(steps)
    {
      var day := StartOfDay(date);
      var key := Key(day);
      var logId := CompositeId(routineId, key);
      assert logId == LogId(routineId, date);
      log := ToggleAt(logId, routineId, day, stepId);
    }

    /** The transaction of `toggleStepToday` once the log id and the day are known. */
    method ToggleAt(logId: string, routineId: string, day: Instant, stepId: string) returns (log: RoutineLog)
      modifies this
      ensures (log, logs) == ToggleOn(old(logs), logId, routineId, day, StepsTotalOf(old(routines), routineId), stepId)
      ensures routines == old(routines) && steps == old(steps)
    {
      var stepsTotal := if routineId in routines then routines[routineId].stepsCount.GetOr(0) else 0;
      var completed: seq<string> := [];
      var existed := false;
      if logId in logs {
        existed := true;
        completed := logs[logId].completedStepIds.GetOr([]);
      }
      ghost var before := completed;
      match FirstIndex(completed, stepId) {
        case Some(idx) => completed := completed[..idx] + completed[idx + 1..];
        case None => completed := completed + [stepId];
      }
      assert completed == Toggled(before, stepId);
      var isCompleted := CompletionFor(|completed|, stepsTotal);
      var payload := LogDoc(Some(routineId), Some(day), Some(completed), Some(stepsTotal), Some(isCompleted));
      if existed {
        logs := logs[logId := MergeLog(logs[logId], payload)];
      } else {
        logs := logs[logId := payload];
      }
      log := RoutineLog(logId, routineId, day, completed, stepsTotal, isCompleted);
    }

    /** `fetchAll`: the routines that have an order field, mapped with the defaults, by ascending order. */
    method FetchAll() returns (rs: seq<Routine>)
      ensures |rs| == |OrderedRoutineIds(routines)|
      ensures ListsRoutines(rs, routines, OrderedRoutineIds(routines))
      ensures forall i, j :: 0 <= i < j < |rs| ==> rs[i].order <= rs[j].order
    {
      var pending := OrderedRoutineIds(routines);
      ghost var done := {};
      rs := [];
      while pending != {}
        invariant RoutinesQueryState(rs, routines, done, pending)
        decreases pending
      {
        var id :| id in pending;
        RoutinesQueryStep(rs, routines, done, pending, id);
        rs := InsertBy(RoutineFrom(id, routines[id]), rs, RoutineOrder);
        done, pending := done + {id}, pending - {id};
      }
      assert forall i, j :: 0 <= i < j < |rs| ==> RoutineOrder(rs[i]) <= RoutineOrder(rs[j]);
    }

    /** `fetchSteps`: the routine's steps that have an order field, mapped with the defaults, by ascending order. */
    method FetchSteps(routineId: string) returns (ss: seq<RoutineStep>)
      ensures |ss| == |OrderedStepIds(StepsUnder(steps, routineId))|
      ensures ListsSteps(ss, StepsUnder(steps, routineId), OrderedStepIds(StepsUnder(steps, routineId)))
      ensures forall i, j :: 0 <= i < j < |ss| ==> ss[i].order <= ss[j].order
    {
      ss := OrderSteps(StepsUnder(steps, routineId));
      assert forall i, j :: 0 <= i < j < |ss| ==> StepOrder(ss[i]) <= StepOrder(ss[j]);
    }

    /**
     * `fetchTodayLogs`: the logs dated at the start of `date`'s day, each
     * under the routine it names ("" when it names none); when logs keep
     * their conventions, the log under a routine is the one with that
     * routine's id for the day.
     */
    method FetchTodayLogs(date: Instant, now: Instant) returns (out: map<string, RoutineLog>)
      ensures out.Keys == set k | k in LogsDated(logs, StartOfDay(date)) :: logs[k].routineId.GetOr("")
      ensures forall rid :: rid in out ==>
        exists k :: k in LogsDated(logs, StartOfDay(date)) && out[rid] == LogFrom(k, logs[k], now) && out[rid].routineId == rid
      ensures LogsWellFormed(logs) ==> forall rid :: rid in out ==>
        LogId(rid, date) in logs && out[rid] == LogFrom(LogId(rid, date), logs[LogId(rid, date)], now)
    {
      var day := StartOfDay(date);
      var pending := LogsDated(logs, day);
      ghost var done := {};
      out := map[];
      while pending != {}
        invariant done + pending == LogsDated(logs, day) && done !! pending
        invariant out.Keys == set k | k in done :: logs[k].routineId.GetOr("")
        invariant forall rid :: rid in out ==>
          exists k :: k in done && out[rid] == LogFrom(k, logs[k], now) && out[rid].routineId == rid
        decreases pending
      {
        var k :| k in pending;
        var log := LogFrom(k, logs[k], now);
        out := out[log.routineId := log];
        done, pending := done + {k}, pending - {k};
      }
      if LogsWellFormed(logs) {
        forall rid | rid in out
          ensures LogId(rid, date) in logs && out[rid] == LogFrom(LogId(rid, date), logs[LogId(rid, date)], now)
        {
          var k :| k in LogsDated(logs, day) && out[rid] == LogFrom(k, logs[k], now) && out[rid].routineId == rid;
          assert WellFormedLog(k, logs[k]);
          StartOfDayIdempotent(date);
        }
      }
    }
  }
}
