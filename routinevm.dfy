/**
 * RoutineVM: the screen-side cache of routines, their steps and today's
 * logs, kept in step with the repository after each user action. Being
 * signed in and reaching the backend are parameters: without a user an
 * action does nothing, and a backend that cannot be reached makes the first
 * repository call fail, which records the error and changes nothing else.
 */
module RoutineViewModel {

  import opened Wrappers
  import opened Calendar
  import opened DayKey
  import opened Models
  import opened RoutineRepository

  /** The result of `progress(for:)` without its floating-point ratio. */
  datatype Progress = Progress(count: int, total: int, done: bool)

  /** `progress(for:)` over the cached logs of today. */
  function ProgressOf(todayLogs: map<string, RoutineLog>, r: Routine): Progress {
    var count := if r.id in todayLogs then |todayLogs[r.id].completedStepIds| else 0;
    Progress(count, r.stepsCount, r.stepsCount > 0 && count >= r.stepsCount)
  }

  /**
   * The ring shows what the stored log says: when today's log keeps its
   * conventions and counts the routine's current steps, `done` is the log's
   * completion flag; without a log nothing is done.
   */
  lemma ProgressAgreesWithLog(todayLogs: map<string, RoutineLog>, r: Routine)
    ensures r.id in todayLogs && LogConventions(todayLogs[r.id]) && todayLogs[r.id].stepsTotal == r.stepsCount ==>
      ProgressOf(todayLogs, r).done == todayLogs[r.id].isCompleted
    ensures r.id !in todayLogs ==> ProgressOf(todayLogs, r) == Progress(0, r.stepsCount, false)
    ensures ProgressOf(todayLogs, r).done <==> ProgressOf(todayLogs, r).count >= ProgressOf(todayLogs, r).total > 0
  {
  }

  /** The hour of the day on the local clock. */
  function HourOf(t: Instant): (h: int)
    ensures 0 <= h < 24
  {
    (t % SecondsPerDay) / 3600
  }

  /** The minute of the hour on the local clock. */
  function MinuteOf(t: Instant): (m: int)
    ensures 0 <= m < 60
  {
    (t % 3600) / 60
  }

  /** Day, hour, minute and second put back together give the instant. */
  lemma ClockFieldsRebuild(t: Instant)
    ensures DayStart(DayOf(t)) + HourOf(t) * 3600 + MinuteOf(t) * 60 + t % 60 == t
  {
    var q, r := t / SecondsPerDay, t % SecondsPerDay;
    var h, r2 := r / 3600, r % 3600;
    var m, sec := r2 / 60, r2 % 60;
    assert t == q * SecondsPerDay + r;
    assert r == h * 3600 + r2;
    assert r2 == m * 60 + sec;
    HourSplit(t, q * 24 + h, r2);
    MinuteSplit(t, (q * 24 + h) * 60 + m, sec);
  }

  /** Splitting an instant at a whole hour. */
  lemma HourSplit(a: int, k: int, b: int)
    requires 0 <= b < 3600 && a == k * 3600 + b
    ensures a % 3600 == b
  {
  }

  /** Splitting an instant at a whole minute. */
  lemma MinuteSplit(a: int, k: int, b: int)
    requires 0 <= b < 60 && a == k * 60 + b
    ensures a % 60 == b
  {
  }

  predicate StrictlyIncreasing(s: seq<int>) {
    forall i, j :: 0 <= i < j < |s| ==> s[i] < s[j]
  }

  /** The least element of a non-empty set. */
  lemma LeastElement(s: set<int>) returns (m: int)
    requires s != {}
    ensures m in s && forall y :: y in s ==> m <= y
  {
    if forall y :: y !in s {
      assert false;
    }
    var x :| x in s;
    var others := s - {x};
    if others == {} {
      forall y | y in s ensures y == x {
        assert y !in others;
      }
      m := x;
    } else {
      var rest := LeastElement(others);
      m := if x < rest then x else rest;
      forall y | y in s ensures m <= y {
        if y != x {
          assert y in others;
        }
      }
    }
  }

  lemma SetHasMinimum(s: set<int>)
    requires s != {}
    ensures exists m :: m in s && forall y :: y in s ==> m <= y
  {
    var m := LeastElement(s);
  }

  function SetMin(s: set<int>): (m: int)
    requires s != {}
    ensures m in s && forall y :: y in s ==> m <= y
  {
    SetHasMinimum(s);
    var m :| m in s && forall y :: y in s ==> m <= y;
    m
  }

  /** The selected days as a list in increasing order, each once. */
  function SortedDays(days: set<int>): (r: seq<int>)
    ensures StrictlyIncreasing(r)
    ensures forall x :: x in r <==> x in days
    ensures |r| == |days|
    decreases days
  {
    if days == {} then []
    else
      var m := SetMin(days);
      var rest := SortedDays(days - {m});
      [m] + rest
  }

  /** The ids of a list of routines. */
  function IdsOf(rs: seq<Routine>): (ids: set<string>)
    ensures forall id :: id in ids <==> exists i :: 0 <= i < |rs| && rs[i].id == id
  {
    set r | r in rs :: r.id
  }

  /** The cached list with every routine of the given id removed, the others kept in place. */
  function WithoutId(rs: seq<Routine>, id: string): (out: seq<Routine>)
    ensures forall r :: r in out <==> r in rs && r.id != id
    ensures |out| <= |rs|
    ensures (forall r :: r in rs ==> r.id != id) ==> out == rs
  {
    if rs == [] then []
    else if rs[0].id == id then WithoutId(rs[1..], id)
    else
      assert rs == [rs[0]] + rs[1..];
      [rs[0]] + WithoutId(rs[1..], id)
  }

  /** Removing by id works element by element: a routine stays exactly when its id differs. */
  lemma WithoutIdSingle(x: Routine, id: string)
    ensures WithoutId([x], id) == if x.id == id then [] else [x]
  {
    assert [x][1..] == [];
  }

  /**
   * Removing by id distributes over concatenation, so the kept routines keep
   * their order and their repeats.
   */
  lemma {:induction false} WithoutIdAppend(a: seq<Routine>, b: seq<Routine>, id: string)
    ensures WithoutId(a + b, id) == WithoutId(a, id) + WithoutId(b, id)
    decreases |a|
  {
    if a == [] {
      assert a + b == b;
    } else {
      assert (a + b)[0] == a[0] && (a + b)[1..] == a[1..] + b;
      WithoutIdAppend(a[1..], b, id);
    }
  }

  /** The step ids of a reordered list, position by position. */
  function StepIds(steps: seq<RoutineStep>): (ids: seq<string>)
    ensures |ids| == |steps| && forall i :: 0 <= i < |steps| ==> ids[i] == steps[i].id
  {
    seq(|steps|, i requires 0 <= i < |steps| => steps[i].id)
  }

  /** The order a new step gets: the number of steps the cache holds for the routine. */
  function NextStepOrder(stepsByRoutine: map<string, seq<RoutineStep>>, routineId: string): (n: int)
    ensures n >= 0
    ensures routineId !in stepsByRoutine ==> n == 0
    ensures routineId in stepsByRoutine ==> n == |stepsByRoutine[routineId]|
  {
    if routineId in stepsByRoutine then |stepsByRoutine[routineId]| else 0
  }

  /** What `fetchSteps` returns for a routine: each of its ordered steps once, by ascending order. */
  ghost predicate StepsListed(ss: seq<RoutineStep>, steps: map<StepKey, StepDoc>, routineId: string) {
    && |ss| == |OrderedStepIds(StepsUnder(steps, routineId))|
    && ListsSteps(ss, StepsUnder(steps, routineId), OrderedStepIds(StepsUnder(steps, routineId)))
    && forall i, j :: 0 <= i < j < |ss| ==> ss[i].order <= ss[j].order
  }

  /** A cached step list is what `fetchSteps` returns for the routine. */
  ghost predicate StepsFresh(cache: map<string, seq<RoutineStep>>, steps: map<StepKey, StepDoc>, routineId: string) {
    routineId in cache && StepsListed(cache[routineId], steps, routineId)
  }

  /** Storing one routine's freshly fetched steps keeps every cached entry fresh. */
  lemma PutKeepsFresh(cache: map<string, seq<RoutineStep>>, steps: map<StepKey, StepDoc>, routineId: string, ss: seq<RoutineStep>,
                      cache': map<string, seq<RoutineStep>>)
    requires forall id :: id in cache ==> StepsFresh(cache, steps, id)
    requires StepsListed(ss, steps, routineId)
    requires cache' == cache[routineId := ss]
    ensures forall id :: id in cache' ==> StepsFresh(cache', steps, id)
  {
    forall id | id in cache' ensures StepsFresh(cache', steps, id) {
      if id != routineId {
        assert StepsFresh(cache, steps, id);
      }
    }
  }

  /** The cached routines are what `fetchAll` returns: each ordered routine once, by ascending order. */
  ghost predicate RoutinesFresh(rs: seq<Routine>, routines: map<string, RoutineDoc>) {
    && |rs| == |OrderedRoutineIds(routines)|
    && ListsRoutines(rs, routines, OrderedRoutineIds(routines))
    && forall i, j :: 0 <= i < j < |rs| ==> rs[i].order <= rs[j].order
  }

  /** The cached logs are keyed by the routines logged on the day of `now`, as `fetchTodayLogs` returns them. */
  ghost predicate TodayFresh(today: map<string, RoutineLog>, logs: map<string, LogDoc>, now: Instant) {
    today.Keys == set k | k in LogsDated(logs, StartOfDay(now)) :: logs[k].routineId.GetOr("")
  }

  /** After a step change: that routine's steps, all routines and today's logs fetched again, other step lists kept. */
  ghost predicate RefetchedAfter(before: map<string, seq<RoutineStep>>, cache: map<string, seq<RoutineStep>>,
                                 rs: seq<Routine>, today: map<string, RoutineLog>,
                                 routines: map<string, RoutineDoc>, steps: map<StepKey, StepDoc>,
                                 logs: map<string, LogDoc>, routineId: string, now: Instant) {
    && cache.Keys == before.Keys + {routineId}
    && (forall id :: id in before && id != routineId ==> cache[id] == before[id])
    && StepsFresh(cache, steps, routineId)
    && RoutinesFresh(rs, routines)
    && TodayFresh(today, logs, now)
  }

  class RoutineVM {

    var routines: seq<Routine>
    var stepsByRoutine: map<string, seq<RoutineStep>>
    var todayLogs: map<string, RoutineLog>
    var error: Option<StoreError>
    const repo: RoutineStore

    constructor (repo: RoutineStore)
      ensures this.repo == repo
      ensures routines == [] && stepsByRoutine == map[] && todayLogs == map[] && error.None?
    {
      this.repo := repo;
      routines, stepsByRoutine, todayLogs, error := [], map[], map[], None;
    }

    /** `load`: the routines, then the steps of each, then today's logs. */
    method Load(signedIn: bool, online: bool, now: Instant)
      modifies this
      ensures !signedIn ==> unchanged(this)
      ensures signedIn && !online ==>
        error == Some(Unavailable) && routines == old(routines) && stepsByRoutine == old(stepsByRoutine) && todayLogs == old(todayLogs)
      ensures signedIn && online ==>
        && error == old(error)
        && RoutinesFresh(routines, repo.routines)
        && (forall id :: id in stepsByRoutine <==> exists i :: 0 <= i < |routines| && routines[i].id == id)
        && (forall id :: id in stepsByRoutine ==> StepsFresh(stepsByRoutine, repo.steps, id))
        && TodayFresh(todayLogs, repo.logs, now)
    {
      if !signedIn {
        return;
      }
      if !online {
        error := Some(Unavailable);
        return;
      }
      var items := repo.FetchAll();
      var dict := FetchStepsOf(items);
      routines := items;
      stepsByRoutine := dict;
      todayLogs := repo.FetchTodayLogs(now, now);
    }

    /** The steps of each listed routine, fetched one routine at a time. */
    method FetchStepsOf(items: seq<Routine>) returns (dict: map<string, seq<RoutineStep>>)
      ensures forall id :: id in dict <==> exists i :: 0 <= i < |items| && items[i].id == id
      ensures forall id :: id in dict ==> StepsFresh(dict, repo.steps, id)
    {
      dict := map[];
      for i := 0 to |items|
        invariant dict.Keys == IdsOf(items[..i])
        invariant forall id :: id in dict ==> StepsFresh(dict, repo.steps, id)
      {
        var ss := repo.FetchSteps(items[i].id);
        PutKeepsFresh(dict, repo.steps, items[i].id, ss, dict[items[i].id := ss]);
        assert items[..i + 1] == items[..i] + [items[i]];
        dict := dict[items[i].id := ss];
      }
      assert items[..|items|] == items;
    }

    /** The fetches after a step change. */
    method Refetch(routineId: string, now: Instant)
      modifies this
      ensures error == old(error)
      ensures RefetchedAfter(old(stepsByRoutine), stepsByRoutine, routines, todayLogs,
                             repo.routines, repo.steps, repo.logs, routineId, now)
    {
      var ss := repo.FetchSteps(routineId);
      assert StepsListed(ss, repo.steps, routineId);
      stepsByRoutine := stepsByRoutine[routineId := ss];
      routines := repo.FetchAll();
      assert RoutinesFresh(routines, repo.routines);
      todayLogs := repo.FetchTodayLogs(now, now);
    }

    /** `toggleStep`: the repository's toggle, its log stored under the routine. */
    method ToggleStep(routineId: string, stepId: string, signedIn: bool, online: bool, date: Instant)
      modifies this, repo
      ensures routines == old(routines) && stepsByRoutine == old(stepsByRoutine)
      ensures repo.routines == old(repo.routines) && repo.steps == old(repo.steps)
      ensures !signedIn ==> unchanged(this) && unchanged(repo)
      ensures signedIn && !online ==> error == Some(Unavailable) && todayLogs == old(todayLogs) && unchanged(repo)
      ensures signedIn && online ==>
        var out := ToggleOn(old(repo.logs), LogId(routineId, date), routineId, StartOfDay(date),
                            StepsTotalOf(old(repo.routines), routineId), stepId);
        && todayLogs == old(todayLogs)[routineId := out.0] && repo.logs == out.1 && error == old(error)
    {
      if !signedIn {
        return;
      }
      if !online {
        error := Some(Unavailable);
        return;
      }
      var log := repo.ToggleStepToday(routineId, stepId, date);
      todayLogs := todayLogs[routineId := log];
    }

    /**
     * `addStep`: a step ordered after the cached ones; on success the
     * routine's steps, the routines and today's logs are fetched again.
     */
    method AddStep(routineId: string, title: string, newStepId: string, signedIn: bool, online: bool, now: Instant)
      modifies this, repo
      ensures !signedIn ==> unchanged(this) && unchanged(repo)
      ensures signedIn && !online ==>
        && error == Some(Unavailable) && unchanged(repo)
        && routines == old(routines) && stepsByRoutine == old(stepsByRoutine) && todayLogs == old(todayLogs)
      ensures signedIn && online ==>
        && repo.steps == old(repo.steps)[(routineId, newStepId) := NewStepDoc(title, None, NextStepOrder(old(stepsByRoutine), routineId))]
        && repo.logs == old(repo.logs)
        && (routineId !in old(repo.routines) ==>
              && repo.routines == old(repo.routines) && error == Some(NotFound)
              && routines == old(routines) && stepsByRoutine == old(stepsByRoutine) && todayLogs == old(todayLogs))
        && (routineId in old(repo.routines) ==>
              && repo.routines == old(repo.routines)[routineId := Bump(old(repo.routines)[routineId], 1)]
              && error == old(error)
              && RefetchedAfter(old(stepsByRoutine), stepsByRoutine, routines, todayLogs,
                                repo.routines, repo.steps, repo.logs, routineId, now))
    {
      if !signedIn {
        return;
      }
      if !online {
        error := Some(Unavailable);
        return;
      }
      var order := if routineId in stepsByRoutine then |stepsByRoutine[routineId]| else 0;
      var r := repo.AddStep(routineId, title, None, order, newStepId);
      if r.Failure? {
        error := Some(r.error);
        return;
      }
      Refetch(routineId, now);
    }

    /** `deleteStep`: the repository's delete; on success the same three fetches as `addStep`. */
    method DeleteStep(routineId: string, stepId: string, signedIn: bool, online: bool, now: Instant)
      modifies this, repo
      ensures !signedIn ==> unchanged(this) && unchanged(repo)
      ensures signedIn && !online ==>
        && error == Some(Unavailable) && unchanged(repo)
        && routines == old(routines) && stepsByRoutine == old(stepsByRoutine) && todayLogs == old(todayLogs)
      ensures signedIn && online ==>
        && repo.steps == old(repo.steps) - {(routineId, stepId)}
        && (routineId !in old(repo.routines) ==>
              && repo.routines == old(repo.routines) && repo.logs == old(repo.logs) && error == Some(NotFound)
              && routines == old(routines) && stepsByRoutine == old(stepsByRoutine) && todayLogs == old(todayLogs))
        && (routineId in old(repo.routines) ==>
              && repo.routines == old(repo.routines)[routineId := Bump(old(repo.routines)[routineId], -1)]
              && repo.logs == FixLog(old(repo.logs), LogId(routineId, now), stepId, StepsTotalOf(repo.routines, routineId))
              && error == old(error)
              && RefetchedAfter(old(stepsByRoutine), stepsByRoutine, routines, todayLogs,
                                repo.routines, repo.steps, repo.logs, routineId, now))
    {
      if !signedIn {
        return;
      }
      if !online {
        error := Some(Unavailable);
        return;
      }
      var r := repo.DeleteStep(routineId, stepId, now);
      if r.Failure? {
        error := Some(r.error);
        return;
      }
      Refetch(routineId, now);
    }

    /** `reorder`: the repository's reorder by the listed steps' ids; on success the steps are fetched again. */
    method Reorder(routineId: string, newOrder: seq<RoutineStep>, signedIn: bool, online: bool)
      modifies this, repo
      ensures routines == old(routines) && todayLogs == old(todayLogs)
      ensures !signedIn ==> unchanged(this) && unchanged(repo)
      ensures signedIn && !online ==> error == Some(Unavailable) && stepsByRoutine == old(stepsByRoutine) && unchanged(repo)
      ensures signedIn && online ==>
        && repo.routines == old(repo.routines) && repo.logs == old(repo.logs)
        && ((forall i :: 0 <= i < |newOrder| ==> (routineId, newOrder[i].id) in old(repo.steps)) ==>
              repo.steps == Reordered(old(repo.steps), routineId, StepIds(newOrder)))
        && (!(forall i :: 0 <= i < |newOrder| ==> (routineId, newOrder[i].id) in old(repo.steps)) ==>
              repo.steps == old(repo.steps) && error == Some(NotFound) && stepsByRoutine == old(stepsByRoutine))
        && ((forall i :: 0 <= i < |newOrder| ==> (routineId, newOrder[i].id) in old(repo.steps)) &&
            routineId !in old(repo.routines) ==>
              error == Some(NotFound) && stepsByRoutine == old(stepsByRoutine))
        && ((forall i :: 0 <= i < |newOrder| ==> (routineId, newOrder[i].id) in old(repo.steps)) &&
            routineId in old(repo.routines) ==>
              && error == old(error)
              && stepsByRoutine.Keys == old(stepsByRoutine).Keys + {routineId}
              && (forall id :: id in old(stepsByRoutine) && id != routineId ==> stepsByRoutine[id] == old(stepsByRoutine)[id])
              && StepsFresh(stepsByRoutine, repo.steps, routineId))
    {
      if !signedIn {
        return;
      }
      if !online {
        error := Some(Unavailable);
        return;
      }
      var r := repo.ReorderSteps(routineId, StepIds(newOrder));
      if r.Failure? {
        error := Some(r.error);
        return;
      }
      var ss := repo.FetchSteps(routineId);
      stepsByRoutine := stepsByRoutine[routineId := ss];
    }

    /**
     * `createRoutine`: the repository's create with the sorted days, the
     * reminder's hour and minute and the next order; then exactly one
     * routine, the one a fetch would read back, is appended to the cache.
     */
    method CreateRoutine(title: string, days: set<int>, timeOfDay: string, reminder: Option<Instant>,
                         newId: string, signedIn: bool, online: bool)
      modifies this, repo
      ensures stepsByRoutine == old(stepsByRoutine) && todayLogs == old(todayLogs)
      ensures !signedIn ==> unchanged(this) && unchanged(repo)
      ensures signedIn && !online ==> error == Some(Unavailable) && routines == old(routines) && unchanged(repo)
      ensures signedIn && online ==>
        var hour := if reminder.Some? then Some(HourOf(reminder.value)) else None;
        var minute := if reminder.Some? then Some(MinuteOf(reminder.value)) else None;
        && repo.routines == old(repo.routines)[newId := NewRoutineDoc(title, SortedDays(days), timeOfDay, hour, minute, |old(routines)|)]
        && repo.steps == old(repo.steps) && repo.logs == old(repo.logs)
        && routines == old(routines) + [Routine(newId, title, true, SortedDays(days), timeOfDay, hour, minute, 0, |old(routines)|)]
        && routines[|routines| - 1] == RoutineFrom(newId, repo.routines[newId])
        && error == old(error)
    {
      if !signedIn {
        return;
      }
      if !online {
        error := Some(Unavailable);
        return;
      }
      var hour := if reminder.Some? then Some(HourOf(reminder.value)) else None;
      var minute := if reminder.Some? then Some(MinuteOf(reminder.value)) else None;
      var id := repo.Create(newId, title, SortedDays(days), timeOfDay, hour, minute, |routines|);
      var item := Routine(id, title, true, SortedDays(days), timeOfDay, hour, minute, 0, |routines|);
      CreatedRoutineReadsBack(id, title, SortedDays(days), timeOfDay, hour, minute, |routines|);
      routines := routines + [item];
    }

    /** `deleteRoutine`: the repository's delete, then the routine and its cache entries go. */
    method DeleteRoutine(r: Routine, signedIn: bool, online: bool)
      modifies this, repo
      ensures !signedIn ==> unchanged(this) && unchanged(repo)
      ensures signedIn && !online ==>
        && error == Some(Unavailable) && unchanged(repo)
        && routines == old(routines) && stepsByRoutine == old(stepsByRoutine) && todayLogs == old(todayLogs)
      ensures signedIn && online ==>
        && repo.routines == old(repo.routines) - {r.id}
        && repo.steps == (map k | k in old(repo.steps) && k.0 != r.id :: old(repo.steps)[k])
        && repo.logs == old(repo.logs)
        && routines == WithoutId(old(routines), r.id)
        && stepsByRoutine == old(stepsByRoutine) - {r.id}
        && todayLogs == old(todayLogs) - {r.id}
        && error == old(error)
    {
      if !signedIn {
        return;
      }
      if !online {
        error := Some(Unavailable);
        return;
      }
      repo.Delete(r.id);
      routines := WithoutId(routines, r.id);
      stepsByRoutine := stepsByRoutine - {r.id};
      todayLogs := todayLogs - {r.id};
    }
  }
}
