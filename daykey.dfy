/**
 * DayKey: the start of an instant's day, and the day's `yyyyMMdd` key as a
 * date formatter with a fixed Gregorian calendar and the POSIX locale renders
 * it. Neither function takes a locale or a calendar: the key is a function of
 * the instant alone.
 */
module DayKey {

  import opened Calendar
  import opened Text

  /** `Calendar.current.startOfDay(for:)`. */
  function StartOfDay(t: Instant): (s: Instant)
    ensures s <= t < s + SecondsPerDay
    ensures DayOf(s) == DayOf(t)
  {
    DayStart(DayOf(t))
  }

  lemma StartOfDayIdempotent(t: Instant)
    ensures StartOfDay(StartOfDay(t)) == StartOfDay(t)
  {
  }

  /** How many times c repeats at the head of p. */
  function RunLength(p: string, c: char): (n: nat)
    ensures n <= |p|
    ensures forall i :: 0 <= i < n ==> p[i] == c
    ensures n < |p| ==> p[n] != c
  {
    if p == [] || p[0] != c then 0 else 1 + RunLength(p[1..], c)
  }

  /**
   * One field of a date pattern: a run of n copies of a pattern letter.
   * Only the numeric year, month and day letters are covered, each padded
   * with zeros to the run's length; any other character stands for itself.
   */
  function Field(letter: char, n: nat, c: Date): string {
    if letter == 'y' then FormatInt(c.year, n)
    else if letter == 'M' then FormatInt(c.month, n)
    else if letter == 'd' then FormatInt(c.day, n)
    else seq(n, _ => letter)
  }

  /** A date formatter's rendering of a civil date under a pattern. */
  function FormatPattern(pattern: string, c: Date): string
    decreases |pattern|
  {
    if pattern == [] then []
    else
      var n := RunLength(pattern, pattern[0]);
      Field(pattern[0], n, c) + FormatPattern(pattern[n..], c)
  }

  const KeyPattern: string := "yyyyMMdd"

  /** The Gregorian civil date of an instant's day. */
  function CivilDate(t: Instant): (c: Date)
    ensures ValidDate(c)
  {
    CivilValid(DayOf(t));
    CivilFromDays(DayOf(t))
  }

  /** `DayKey.key`: the formatter renders the start of the day. */
  function Key(t: Instant): string {
    FormatPattern(KeyPattern, CivilDate(StartOfDay(t)))
  }

  /** The three zero-padded fields, year first, with no separators. */
  function CivilKey(c: Date): string {
    FormatInt(c.year, 4) + FormatInt(c.month, 2) + FormatInt(c.day, 2)
  }

  lemma KeyPatternFields(c: Date)
    ensures FormatPattern(KeyPattern, c) == CivilKey(c)
  {
    YearField(c);
    MonthDayFields(c);
    DayField(c);
  }

  lemma YearField(c: Date)
    ensures FormatPattern(KeyPattern, c) == FormatInt(c.year, 4) + FormatPattern("MMdd", c)
  {
    var p := KeyPattern;
    assert RunLength(p, 'y') == 4 by {
      assert p[0] == p[1] == p[2] == p[3] == 'y' && p[4] == 'M';
    }
    assert p[4..] == "MMdd";
  }

  lemma DayField(c: Date)
    ensures FormatPattern("dd", c) == FormatInt(c.day, 2)
  {
    assert RunLength("dd", 'd') == 2;
    assert "dd"[2..] == [];
  }

  lemma MonthDayFields(c: Date)
    ensures FormatPattern("MMdd", c) == FormatInt(c.month, 2) + FormatPattern("dd", c)
  {
    assert RunLength("MMdd", 'M') == 2;
    assert "MMdd"[2..] == "dd";
  }

  /** The key is the year, month and day of the instant's own day. */
  lemma KeyIsCivilKey(t: Instant)
    ensures Key(t) == CivilKey(CivilDate(t))
  {
    KeyPatternFields(CivilDate(StartOfDay(t)));
  }

  /** Two instants with the same start of day get the same key. */
  lemma KeyDependsOnDayStart(a: Instant, b: Instant)
    requires StartOfDay(a) == StartOfDay(b)
    ensures Key(a) == Key(b)
  {
  }

  lemma TwoDigitField(n: int)
    requires 1 <= n <= 31
    ensures |FormatInt(n, 2)| == 2
  {
    FormatIntWidth(n, 2);
    assert Pow10(2) == 100;
  }

  /** Distinct valid civil dates have distinct keys. */
  lemma CivilKeyInjective(c1: Date, c2: Date)
    requires ValidDate(c1) && ValidDate(c2)
    ensures CivilKey(c1) == CivilKey(c2) <==> c1 == c2
  {
    if CivilKey(c1) == CivilKey(c2) {
      TwoDigitField(c1.month);
      TwoDigitField(c1.day);
      TwoDigitField(c2.month);
      TwoDigitField(c2.day);
      var k := CivilKey(c1);
      var y1, y2 := FormatInt(c1.year, 4), FormatInt(c2.year, 4);
      assert |y1| == |y2| == |k| - 4;
      assert y1 == k[..|k| - 4] == y2;
      assert FormatInt(c1.month, 2) == k[|k| - 4..|k| - 2] == FormatInt(c2.month, 2);
      assert FormatInt(c1.day, 2) == k[|k| - 2..] == FormatInt(c2.day, 2);
      FormatIntInjective(c1.year, c2.year, 4);
      FormatIntInjective(c1.month, c2.month, 2);
      FormatIntInjective(c1.day, c2.day, 2);
    }
  }

  /** The key identifies the day: equal keys exactly when equal day starts. */
  lemma KeyInjective(a: Instant, b: Instant)
    ensures Key(a) == Key(b) <==> StartOfDay(a) == StartOfDay(b)
  {
    KeyIsCivilKey(a);
    KeyIsCivilKey(b);
    CivilKeyInjective(CivilDate(a), CivilDate(b));
    CivilInjective(DayOf(a), DayOf(b));
  }

  /** The key is exactly eight decimal digits exactly when the year is 0..9999. */
  lemma KeyIsEightDigits(t: Instant)
    ensures |Key(t)| == 8 && AllDigits(Key(t)) <==> 0 <= CivilDate(t).year <= 9999
  {
    KeyIsCivilKey(t);
    CivilKeyIsEightDigits(CivilDate(t));
  }

  lemma CivilKeyIsEightDigits(c: Date)
    requires ValidDate(c)
    ensures |CivilKey(c)| == 8 && AllDigits(CivilKey(c)) <==> 0 <= c.year <= 9999
  {
    TwoDigitField(c.month);
    TwoDigitField(c.day);
    FormatIntWidth(c.year, 4);
    assert Pow10(4) == 10000;
    var y, m, d := FormatInt(c.year, 4), FormatInt(c.month, 2), FormatInt(c.day, 2);
    assert CivilKey(c) == y + m + d;
    if AllDigits(CivilKey(c)) {
      assert forall i :: 0 <= i < |y| ==> CivilKey(c)[i] == y[i];
    }
  }

  /** No key holds an underscore, the separator of composite document ids. */
  lemma KeyHasNoUnderscore(t: Instant)
    ensures '_' !in Key(t)
  {
    KeyIsCivilKey(t);
    CivilKeyHasNoUnderscore(CivilDate(t));
  }

  lemma CivilKeyHasNoUnderscore(c: Date)
    ensures '_' !in CivilKey(c)
  {
    var y, m, d := FormatInt(c.year, 4), FormatInt(c.month, 2), FormatInt(c.day, 2);
    assert CivilKey(c) == y + m + d;
    assert '_' !in y && '_' !in m && '_' !in d;
  }
}
