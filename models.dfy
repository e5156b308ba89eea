/**
 * The records of routines, their steps and their daily logs, and of habits
 * and their daily counters, with the conventions the code keeps about them.
 * Creation and modification timestamps are not part of this model.
 */
module Models {

  import opened Wrappers
  import opened Calendar
  import opened DayKey

  datatype Routine = Routine(
    id: string,
    title: string,
    isActive: bool,
    /** weekday numbers, 1 = Monday .. 7 = Sunday */
    daysOfWeek: seq<int>,
    /** a free label such as "morning" or a custom one */
    timeOfDay: string,
    reminderHour: Option<int>,
    reminderMinute: Option<int>,
    stepsCount: int,
    order: int)

  datatype RoutineStep = RoutineStep(
    id: string,
    title: string,
    /** the habit this step stands for, if any */
    habitId: Option<string>,
    order: int,
    isOptional: bool)

  datatype RoutineLog = RoutineLog(
    /** routineId + "_" + day key */
    id: string,
    routineId: string,
    /** the start of the logged day */
    date: Instant,
    completedStepIds: seq<string>,
    stepsTotal: int,
    isCompleted: bool)

  datatype Habit = Habit(id: Option<string>, title: string, targetPerDay: int, isActive: bool)

  datatype HabitLog = HabitLog(id: Option<string>, habitId: string, date: Instant, count: int)

  predicate IsWeekday(n: int) {
    1 <= n <= 7
  }

  /** The default schedule: every day of the week. */
  const AllWeekdays: seq<int> := [1, 2, 3, 4, 5, 6, 7]

  lemma AllWeekdaysExactly()
    ensures forall n :: n in AllWeekdays <==> IsWeekday(n)
  {
  }

  /** A day's routine counts as complete when it has steps and at least that many are done. */
  predicate CompletionFor(done: int, total: int) {
    total > 0 && done >= total
  }

  /** The id of a per-day document: the owner's id, an underscore, the day key. */
  function CompositeId(parentId: string, dayKey: string): string {
    parentId + "_" + dayKey
  }

  /** A composite id splits back into its owner and its day when the key has no underscore. */
  lemma CompositeIdInjective(p1: string, k1: string, p2: string, k2: string)
    requires '_' !in k1 && '_' !in k2
    ensures CompositeId(p1, k1) == CompositeId(p2, k2) <==> p1 == p2 && k1 == k2
  {
    var s1, s2 := CompositeId(p1, k1), CompositeId(p2, k2);
    if s1 == s2 {
      if |k1| < |k2| {
        UnderscoreInLongerKey(p1, k1, p2, k2);
      } else if |k2| < |k1| {
        UnderscoreInLongerKey(p2, k2, p1, k1);
      } else {
        assert p1 == s1[..|p1|] == s2[..|p2|] == p2;
        assert k1 == s1[|p1| + 1..] == s2[|p2| + 1..] == k2;
      }
    }
  }

  /** If two composite ids are equal and one key is shorter, the longer key holds the separator. */
  lemma UnderscoreInLongerKey(p1: string, k1: string, p2: string, k2: string)
    requires CompositeId(p1, k1) == CompositeId(p2, k2) && |k1| < |k2|
    ensures '_' in k2
  {
    var s1, s2 := CompositeId(p1, k1), CompositeId(p2, k2);
    assert s1[|p1|] == '_';
    assert k2[|k2| - |k1| - 1] == s2[|p1|];
  }

  /** The id of a routine's log for the day of `day`. */
  function LogId(routineId: string, day: Instant): string {
    CompositeId(routineId, Key(StartOfDay(day)))
  }

  /** At most one log per routine per day: the log id determines both. */
  lemma LogIdInjective(r1: string, d1: Instant, r2: string, d2: Instant)
    ensures LogId(r1, d1) == LogId(r2, d2) <==> r1 == r2 && StartOfDay(d1) == StartOfDay(d2)
  {
    KeyHasNoUnderscore(StartOfDay(d1));
    KeyHasNoUnderscore(StartOfDay(d2));
    CompositeIdInjective(r1, Key(StartOfDay(d1)), r2, Key(StartOfDay(d2)));
    KeyInjective(StartOfDay(d1), StartOfDay(d2));
  }

  predicate NoDuplicates<T(==)>(s: seq<T>) {
    forall i, j :: 0 <= i < j < |s| ==> s[i] != s[j]
  }

  /** The documented conventions of a routine log. */
  predicate LogConventions(log: RoutineLog) {
    && log.id == LogId(log.routineId, log.date)
    && StartOfDay(log.date) == log.date
    && log.isCompleted == CompletionFor(|log.completedStepIds|, log.stepsTotal)
  }
}
