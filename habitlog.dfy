/**
 * HabitLogRepository: one counter document per habit per day, stored under
 * the id `habitId_dayKey`, ticked up to the habit's daily target; the day's
 * counts, a habit's logs over a date range, and the streak of consecutive days
 * ending today.
 */
module HabitLogRepository {

  import opened Wrappers
  import opened Calendar
  import opened Text
  import opened DayKey
  import opened Models
  import opened Listing

  datatype HabitError = TargetReached

  /** A stored counter document; each field may be missing or of another type. */
  datatype HabitLogDoc = HabitLogDoc(habitId: Option<string>, date: Option<Instant>, count: Option<int>)

  type Docs = map<string, HabitLogDoc>

  const DayKeyFormat: string := "%04d%02d%02d"

  /** `HabitLogRepository.dayKey`: the calendar's year, month and day through `String(format:)`. */
  function DayKeyOf(t: Instant): string {
    var c := CivilDate(t);
    Printf(DayKeyFormat, [c.year, c.month, c.day]).GetOr("")
  }

  lemma DayKeyFormatFields(y: int, m: int, d: int)
    ensures Printf(DayKeyFormat, [y, m, d]) == Some(FormatInt(y, 4) + FormatInt(m, 2) + FormatInt(d, 2))
  {
    var f3, f2, f1 := DayKeyFormat, DayKeyFormat[4..], DayKeyFormat[8..];
    assert f2 == "%02d%02d" && f1 == "%02d" && f1[4..] == [];
    assert DigitValue(f3[2]) == 4 && DigitValue(f2[2]) == 2 && DigitValue(f1[2]) == 2;
    assert [y, m, d][1..] == [m, d] && [m, d][1..] == [d] && [d][1..] == [];
    assert Printf(f1[4..], [d][1..]) == Some([]);
    assert FormatInt(d, 2) + [] == FormatInt(d, 2);
    assert Printf(f1, [d]) == Some(FormatInt(d, 2));
    assert Printf(f2, [m, d]) == Some(FormatInt(m, 2) + FormatInt(d, 2));
    assert f3[4..] == f2;
    assert Printf(f3, [y, m, d]) == Some(FormatInt(y, 4) + (FormatInt(m, 2) + FormatInt(d, 2)));
    assert FormatInt(y, 4) + (FormatInt(m, 2) + FormatInt(d, 2)) == FormatInt(y, 4) + FormatInt(m, 2) + FormatInt(d, 2);
  }

  /** The two day-key implementations agree on every instant. */
  lemma DayKeysAgree(t: Instant)
    ensures DayKeyOf(t) == Key(t)
  {
    var c := CivilDate(t);
    DayKeyFormatFields(c.year, c.month, c.day);
    KeyIsCivilKey(t);
  }

  /** Two instants have the same day key exactly when they fall on the same day. */
  lemma DayKeyOfInjective(a: Instant, b: Instant)
    ensures DayKeyOf(a) == DayKeyOf(b) <==> DayOf(a) == DayOf(b)
  {
    DayKeysAgree(a);
    DayKeysAgree(b);
    KeyInjective(a, b);
  }

  /** `habitId_dayKey`, the id of a habit's counter for the day of `date`. */
  function CounterId(habitId: string, date: Instant): string {
    CompositeId(habitId, DayKeyOf(date))
  }

  /** One counter per habit per day: the counter id determines the habit and the day. */
  lemma CounterIdInjective(h1: string, d1: Instant, h2: string, d2: Instant)
    ensures CounterId(h1, d1) == CounterId(h2, d2) <==> h1 == h2 && DayOf(d1) == DayOf(d2)
  {
    DayKeysAgree(d1);
    DayKeysAgree(d2);
    KeyHasNoUnderscore(d1);
    KeyHasNoUnderscore(d2);
    CompositeIdInjective(h1, DayKeyOf(d1), h2, DayKeyOf(d2));
    DayKeyOfInjective(d1, d2);
  }

  /** The count a read of document `id` yields: 0 when the document or its field is missing. */
  function StoredCount(docs: Docs, id: string): int {
    if id in docs then docs[id].count.GetOr(0) else 0
  }

  /**
   * The transaction of `tickCapped` on counter document `id`: a count that
   * has reached the target fails with TargetReached and writes nothing;
   * otherwise the counter goes up by exactly one, stamped with the habit and
   * the day, and no other document changes.
   */
  function TickOn(docs: Docs, habitId: string, target: int, id: string, day: Instant): (out: (Result<int, HabitError>, Docs))
    ensures out.0.Failure? <==> StoredCount(docs, id) >= target
    ensures out.0.Failure? ==> out.0.error == TargetReached && out.1 == docs
    ensures out.0.Success? ==>
      && out.0.value == StoredCount(docs, id) + 1 <= target
      && StoredCount(out.1, id) == out.0.value
      && id in out.1 && out.1[id].habitId == Some(habitId) && out.1[id].date == Some(day)
    ensures forall k :: k != id ==> (k in out.1 <==> k in docs) && (k in docs ==> out.1[k] == docs[k])
  {
    var current := StoredCount(docs, id);
    if current >= target then (Failure(TargetReached), docs)
    else
      // a merge of the three fields, the count by a server-side increment of
      // the value just read (0 when absent)
      (Success(current + 1), docs[id := HabitLogDoc(Some(habitId), Some(day), Some(current + 1))])
  }

  /**
   * `tickCapped`: a habit without an id returns 0 and writes nothing;
   * otherwise the transaction runs on the habit's counter for the day of
   * `date`, dated at the start of that day.
   */
  function TickOutcome(docs: Docs, habit: Habit, date: Instant): (out: (Result<int, HabitError>, Docs))
    ensures habit.id.None? ==> out == (Success(0), docs)
  {
    match habit.id
    case None => (Success(0), docs)
    case Some(habitId) => TickOn(docs, habitId, habit.targetPerDay, CounterId(habitId, date), StartOfDay(date))
  }

  /** n successive ticks of one counter: the store at the end, and what each returns. */
  function TickTimes(docs: Docs, habitId: string, target: int, id: string, day: Instant, n: nat): (Docs, seq<Result<int, HabitError>>)
    decreases n
  {
    if n == 0 then (docs, [])
    else
      var first := TickOn(docs, habitId, target, id, day);
      var rest := TickTimes(first.1, habitId, target, id, day, n - 1);
      (rest.0, [first.0] + rest.1)
  }

  /** From a count c, n ticks that stay within the target return c+1, ..., c+n and leave c+n. */
  lemma {:induction false} TicksWithinTarget(docs: Docs, habitId: string, target: int, id: string, day: Instant, n: nat)
    requires StoredCount(docs, id) + n <= target
    ensures var out := TickTimes(docs, habitId, target, id, day, n);
      && |out.1| == n
      && (forall i :: 0 <= i < n ==> out.1[i] == Success(StoredCount(docs, id) + i + 1))
      && StoredCount(out.0, id) == StoredCount(docs, id) + n
    decreases n
  {
    if n > 0 {
      var first := TickOn(docs, habitId, target, id, day);
      TicksWithinTarget(first.1, habitId, target, id, day, n - 1);
    }
  }

  /** n+1 ticks are n ticks followed by one more. */
  lemma {:induction false} TickTimesSplit(docs: Docs, habitId: string, target: int, id: string, day: Instant, n: nat)
    ensures var within := TickTimes(docs, habitId, target, id, day, n);
      var last := TickOn(within.0, habitId, target, id, day);
      TickTimes(docs, habitId, target, id, day, n + 1) == (last.1, within.1 + [last.0])
    decreases n
  {
    var first := TickOn(docs, habitId, target, id, day);
    if n == 0 {
      assert TickTimes(first.1, habitId, target, id, day, 0) == (first.1, []);
      assert [first.0] + [] == [] + [first.0];
    } else {
      TickTimesSplit(first.1, habitId, target, id, day, n - 1);
      var rest := TickTimes(first.1, habitId, target, id, day, n - 1);
      var last := TickOn(rest.0, habitId, target, id, day);
      assert TickTimes(docs, habitId, target, id, day, n) == (rest.0, [first.0] + rest.1);
      assert TickTimes(first.1, habitId, target, id, day, n) == (last.1, rest.1 + [last.0]);
      assert [first.0] + (rest.1 + [last.0]) == ([first.0] + rest.1) + [last.0];
    }
  }

  /**
   * Ticking a counter that has no count yet `target` times returns 1, ...,
   * target; the next tick fails with TargetReached and the count stays at
   * the target.
   */
  lemma TicksUpToTarget(docs: Docs, habitId: string, target: nat, id: string, day: Instant)
    requires StoredCount(docs, id) == 0
    ensures var out := TickTimes(docs, habitId, target, id, day, target + 1);
      && |out.1| == target + 1
      && (forall i :: 0 <= i < target ==> out.1[i] == Success(i + 1))
      && out.1[target] == Failure(TargetReached)
      && StoredCount(out.0, id) == target
  {
    TicksWithinTarget(docs, habitId, target, id, day, target);
    TickTimesSplit(docs, habitId, target, id, day, target);
  }

  /**
   * Every document sits under the id its own habit and day give it, dated at
   * the start of that day, as tickCapped writes them.
   */
  ghost predicate WellKeyed(docs: Docs) {
    forall k :: k in docs ==>
      && docs[k].habitId.Some? && docs[k].date.Some?
      && StartOfDay(docs[k].date.value) == docs[k].date.value
      && k == CounterId(docs[k].habitId.value, docs[k].date.value)
  }

  lemma TickKeepsWellKeyed(docs: Docs, habit: Habit, date: Instant)
    requires WellKeyed(docs)
    ensures WellKeyed(TickOutcome(docs, habit, date).1)
  {
    DayKeyOfInjective(StartOfDay(date), date);
  }

  /** The counter a successful tick writes is the habit's counter for the day of `date`. */
  lemma TickWritesDayCounter(docs: Docs, habit: Habit, date: Instant)
    requires habit.id.Some?
    ensures var id := CounterId(habit.id.value, date);
      var out := TickOutcome(docs, habit, date);
      && (out.0.Failure? <==> StoredCount(docs, id) >= habit.targetPerDay)
      && (out.0.Success? ==> out.0.value == StoredCount(docs, id) + 1 && StoredCount(out.1, id) == out.0.value
                             && out.1[id].date == Some(StartOfDay(date)))
  {
  }

  /** The fields `logs` reads back, with the defaults for missing ones. */
  function HabitLogFrom(id: string, d: HabitLogDoc, now: Instant): (log: HabitLog)
    ensures log.id == Some(id)
    ensures log.count == (if d.count.Some? then d.count.value else 0)
  {
    HabitLog(Some(id), d.habitId.GetOr(""), d.date.GetOr(now), d.count.GetOr(0))
  }

  /** The sort key of a newest-first listing. */
  function NewestFirst(log: HabitLog): int {
    -log.date
  }

  /** `logs` lists exactly the documents `done`, each mapped with the defaults. */
  ghost predicate ListsExactly(logs: seq<HabitLog>, docs: Docs, done: set<string>, now: Instant)
    requires done <= docs.Keys
  {
    && (forall l :: l in logs ==> l.id.Some? && l.id.value in done && l == HabitLogFrom(l.id.value, docs[l.id.value], now))
    && (forall k :: k in done ==> HabitLogFrom(k, docs[k], now) in logs)
  }

  /** The loop state of a listing query over `window`: `done` listed exactly, newest first; `pending` still to go. */
  ghost predicate ListingState(logs: seq<HabitLog>, docs: Docs, window: set<string>, done: set<string>, pending: set<string>, now: Instant) {
    && window <= docs.Keys && done + pending == window && done !! pending
    && |logs| == |done| && ListsExactly(logs, docs, done, now) && SortedBy(logs, NewestFirst)
  }

  lemma ListingStep(logs: seq<HabitLog>, docs: Docs, window: set<string>, done: set<string>, pending: set<string>, k: string, now: Instant)
    requires ListingState(logs, docs, window, done, pending, now) && k in pending
    ensures ListingState(InsertBy(HabitLogFrom(k, docs[k], now), logs, NewestFirst), docs, window, done + {k}, pending - {k}, now)
  {
    InsertKeepsListing(logs, docs, done, k, now);
  }

  /** Inserting one more document's log keeps the listing exact. */
  lemma InsertKeepsListing(logs: seq<HabitLog>, docs: Docs, done: set<string>, k: string, now: Instant)
    requires done <= docs.Keys && k in docs
    requires SortedBy(logs, NewestFirst) && ListsExactly(logs, docs, done, now)
    ensures ListsExactly(InsertBy(HabitLogFrom(k, docs[k], now), logs, NewestFirst), docs, done + {k}, now)
  {
    var log := HabitLogFrom(k, docs[k], now);
    forall l ensures l in InsertBy(log, logs, NewestFirst) <==> l in logs || l == log {
      InsertByMembers(log, logs, NewestFirst, l);
    }
  }

  /** The documents `logs` selects: the habit's, dated in [lo, hi). */
  predicate InRange(d: HabitLogDoc, habitId: string, lo: Instant, hi: Instant) {
    d.habitId == Some(habitId) && d.date.Some? && lo <= d.date.value < hi
  }

  /** The ids of the habit's documents dated in [lo, hi). */
  function Window(docs: Docs, habitId: string, lo: Instant, hi: Instant): (w: set<string>)
    ensures forall k :: k in w <==> k in docs && InRange(docs[k], habitId, lo, hi)
  {
    set k | k in docs && InRange(docs[k], habitId, lo, hi)
  }

  /** The day keys of the documents of a window. */
  function WindowKeys(docs: Docs, habitId: string, lo: Instant, hi: Instant): set<string> {
    set k | k in Window(docs, habitId, lo, hi) :: DayKeyOf(docs[k].date.value)
  }

  /** Some document of the habit is dated on the given day. */
  ghost predicate DoneOn(docs: Docs, habitId: string, day: int) {
    exists k :: k in docs && docs[k].habitId == Some(habitId) && docs[k].date.Some? && DayOf(docs[k].date.value) == day
  }

  /** A day in the window whose key is missing from the collected keys has no record. */
  lemma NotDoneWhenKeyMissing(docs: Docs, habitId: string, lo: int, hi: int, day: int, days: set<string>, t: Instant)
    requires days == WindowKeys(docs, habitId, DayStart(lo), DayStart(hi))
    requires lo <= day < hi && t == DayStart(day) && DayKeyOf(t) !in days
    ensures !DoneOn(docs, habitId, day)
  {
    forall k | k in docs && docs[k].habitId == Some(habitId) && docs[k].date.Some?
      ensures DayOf(docs[k].date.value) != day
    {
      var d := docs[k].date.value;
      DayRange(d, lo, hi);
      DayKeyOfInjective(d, t);
      DayOfDayStart(day);
    }
  }

  /** A collected key belongs to a day of the window. */
  lemma KeyInDaysIsInWindow(docs: Docs, habitId: string, lo: int, hi: int, day: int, days: set<string>, t: Instant)
    requires days == WindowKeys(docs, habitId, DayStart(lo), DayStart(hi))
    requires t == DayStart(day) && DayKeyOf(t) in days
    ensures lo <= day < hi && DoneOn(docs, habitId, day)
  {
    var window := Window(docs, habitId, DayStart(lo), DayStart(hi));
    var k :| k in window && DayKeyOf(docs[k].date.value) == DayKeyOf(t);
    var d := docs[k].date.value;
    DayKeyOfInjective(d, t);
    DayOfDayStart(day);
    DayRange(d, lo, hi);
  }

  /** The streak window's bounds are day starts: `lookbackDays` days back, and the next day's start. */
  lemma WindowBounds(now: Instant, lookbackDays: int)
    ensures StartOfDay(now) - lookbackDays * SecondsPerDay == DayStart(DayOf(now) - lookbackDays)
    ensures StartOfDay(now) + SecondsPerDay == DayStart(DayOf(now) + 1)
  {
  }

  /** The user's habit-log collection, keyed by document id. */
  class HabitLogStore {

    var docs: Docs

    constructor (docs: Docs)
      ensures this.docs == docs
    {
      this.docs := docs;
    }

    /** `tickCapped`: read the day's count, check it against the target, add one. */
    method TickCapped(habit: Habit, date: Instant) returns (r: Result<int, HabitError>)
      modifies this
      ensures (r, docs) == TickOutcome(old(docs), habit, date)
    {
      if habit.id.None? {
        return Success(0);
      }
      var habitId := habit.id.value;
      var key := DayKeyOf(date);
      var docId := CompositeId(habitId, key);
      assert docId == CounterId(habitId, date);
      var sod := StartOfDay(date);
      var current := if docId in docs then docs[docId].count.GetOr(0) else 0;
      if current >= habit.targetPerDay {
        return Failure(TargetReached);
      }
      docs := docs[docId := HabitLogDoc(Some(habitId), Some(sod), Some(current + 1))];
      return Success(current + 1);
    }

    /**
     * `todayCounts`: every habit with a document dated at today's start maps
     * to that document's count (a missing habit id reads as "", a missing
     * count as 0); when ids follow the `habitId_dayKey` convention that is
     * the count of the habit's counter for today.
     */
    method TodayCounts(today: Instant) returns (out: map<string, int>)
      ensures out.Keys == set k | k in docs && docs[k].date == Some(StartOfDay(today)) :: docs[k].habitId.GetOr("")
      ensures forall h :: h in out ==>
        exists k :: k in docs && docs[k].date == Some(StartOfDay(today)) && docs[k].habitId.GetOr("") == h
                    && out[h] == docs[k].count.GetOr(0)
      ensures WellKeyed(docs) ==> forall h :: h in out ==> out[h] == StoredCount(docs, CounterId(h, today))
    {
      var day := StartOfDay(today);
      var pending := set k | k in docs && docs[k].date == Some(day);
      ghost var all := pending;
      out := map[];
      while pending != {}
        invariant pending <= all
        invariant out.Keys == set k | k in all - pending :: docs[k].habitId.GetOr("")
        invariant forall h :: h in out ==>
          exists k :: k in all - pending && docs[k].habitId.GetOr("") == h && out[h] == docs[k].count.GetOr(0)
        decreases pending
      {
        var k :| k in pending;
        var d := docs[k];
        var id := d.habitId.GetOr("");
        var c := d.count.GetOr(0);
        out := out[id := c];
        pending := pending - {k};
      }
      if WellKeyed(docs) {
        forall h | h in out
          ensures out[h] == StoredCount(docs, CounterId(h, today))
        {
          var k :| k in all && docs[k].habitId.GetOr("") == h && out[h] == docs[k].count.GetOr(0);
          DayKeyOfInjective(day, today);
        }
      }
    }

    /**
     * `logs(from:to:)`: exactly the habit's documents dated from the start of
     * `from`'s day up to, not including, the start of `to`'s day, each once,
     * newest first.
     */
    method Logs(habitId: string, from: Instant, to: Instant, now: Instant) returns (logs: seq<HabitLog>)
      ensures |logs| == |Window(docs, habitId, StartOfDay(from), StartOfDay(to))|
      ensures ListsExactly(logs, docs, Window(docs, habitId, StartOfDay(from), StartOfDay(to)), now)
      ensures forall i, j :: 0 <= i < j < |logs| ==> logs[i].date >= logs[j].date
    {
      logs := Query(habitId, StartOfDay(from), StartOfDay(to), now);
      assert forall i, j :: 0 <= i < j < |logs| ==> NewestFirst(logs[i]) <= NewestFirst(logs[j]);
    }

    /** The range query behind `logs`: the window's documents, mapped and ordered newest first. */
    method Query(habitId: string, lo: Instant, hi: Instant, now: Instant) returns (logs: seq<HabitLog>)
      ensures |logs| == |Window(docs, habitId, lo, hi)|
      ensures ListsExactly(logs, docs, Window(docs, habitId, lo, hi), now)
      ensures SortedBy(logs, NewestFirst)
    {
      var pending := Window(docs, habitId, lo, hi);
      ghost var all, done := pending, {};
      logs := [];
      while pending != {}
        invariant ListingState(logs, docs, all, done, pending, now)
        decreases pending
      {
        var k :| k in pending;
        ListingStep(logs, docs, all, done, pending, k, now);
        logs := InsertBy(HabitLogFrom(k, docs[k], now), logs, NewestFirst);
        done, pending := done + {k}, pending - {k};
      }
    }

    /** The day keys of the habit's documents dated in [lo, hi). */
    method DayKeys(habitId: string, lo: Instant, hi: Instant) returns (days: set<string>)
      ensures days == WindowKeys(docs, habitId, lo, hi)
    {
      var pending := Window(docs, habitId, lo, hi);
      ghost var all, done := pending, {};
      days := {};
      while pending != {}
        invariant done + pending == all && done !! pending
        invariant days == set k | k in done :: DayKeyOf(docs[k].date.value)
        decreases pending
      {
        var k :| k in pending;
        if docs[k].date.Some? {
          days := days + {DayKeyOf(docs[k].date.value)};
        }
        done, pending := done + {k}, pending - {k};
      }
    }

    /**
     * `streak`: the days from today backwards that each have a document of
     * the habit, stopping at the first day without one; only documents dated
     * within the last `lookbackDays` days and today are looked at, so a
     * longer run is cut at lookbackDays + 1. A document counts whatever its
     * count.
     */
    method Streak(habitId: string, now: Instant, lookbackDays: int := 90) returns (streak: int)
      ensures 0 <= streak <= (if lookbackDays >= 0 then lookbackDays + 1 else 0)
      ensures forall day :: DayOf(now) - streak < day <= DayOf(now) ==> DoneOn(docs, habitId, day)
      ensures streak <= lookbackDays ==> !DoneOn(docs, habitId, DayOf(now) - streak)
    {
      var today := StartOfDay(now);
      var from := today - lookbackDays * SecondsPerDay;
      var upper := today + SecondsPerDay;
      WindowBounds(now, lookbackDays);
      var days := DayKeys(habitId, from, upper);
      streak := CountBack(habitId, now, lookbackDays, days);
    }

    /** The loop of `streak`: step back one day at a time while the day's key was collected. */
    method CountBack(habitId: string, now: Instant, lookbackDays: int, days: set<string>) returns (streak: int)
      requires days == WindowKeys(docs, habitId, DayStart(DayOf(now) - lookbackDays), DayStart(DayOf(now) + 1))
      ensures 0 <= streak <= (if lookbackDays >= 0 then lookbackDays + 1 else 0)
      ensures forall day :: DayOf(now) - streak < day <= DayOf(now) ==> DoneOn(docs, habitId, day)
      ensures streak <= lookbackDays ==> !DoneOn(docs, habitId, DayOf(now) - streak)
    {
      ghost var lo, hi := DayOf(now) - lookbackDays, DayOf(now) + 1;
      var today := StartOfDay(now);
      streak := 0;
      var cursor := today;
      while DayKeyOf(cursor) in days
        invariant 0 <= streak && cursor == DayStart(DayOf(now) - streak)
        invariant streak <= (if lookbackDays >= 0 then lookbackDays + 1 else 0)
        invariant forall day :: DayOf(now) - streak < day <= DayOf(now) ==> DoneOn(docs, habitId, day)
        decreases lookbackDays + 1 - streak
      {
        KeyInDaysIsInWindow(docs, habitId, lo, hi, DayOf(now) - streak, days, cursor);
        streak := streak + 1;
        cursor := cursor - SecondsPerDay;
      }
      if streak <= lookbackDays {
        NotDoneWhenKeyMissing(docs, habitId, lo, hi, DayOf(now) - streak, days, cursor);
      }
    }
  }
}
