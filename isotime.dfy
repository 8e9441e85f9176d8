/**
 * Calendar dates, UTC date-times and the timestamp normalisation shared by
 * the three exporters: `iso` (gdocs_export.py and gh_export.py), `parse_ts`,
 * `default_range` and the query bounds built from a window.
 *
 * Parsing follows `datetime.fromisoformat` after the code's own
 * `replace("Z", "+00:00")`, for the forms every Python 3.7+ release accepts:
 * `YYYY-MM-DD`, or `YYYY-MM-DD`, any one separator character and `HH:MM:SS`,
 * optionally followed by a fraction of three or six digits and an offset
 * `+HH:MM` / `-HH:MM`. The offset is read and dropped: the code formats the
 * wall-clock time with `strftime` and a literal `Z`.
 */
module IsoTime {
  import opened Wrappers
  import opened Text

  datatype Date = Date(year: int, month: int, day: int)

  /** A wall-clock date-time; the fraction and the offset are not kept. */
  datatype DateTime = DateTime(date: Date, hour: int, minute: int, second: int)

  predicate IsLeap(y: int) {
    y % 4 == 0 && (y % 100 != 0 || y % 400 == 0)
  }

  function DaysInMonth(y: int, m: int): int
    requires 1 <= m <= 12
  {
    if m == 2 then (if IsLeap(y) then 29 else 28)
    else if m == 4 || m == 6 || m == 9 || m == 11 then 30
    else 31
  }

  /** The dates Python's `date` can hold: years 1 to 9999. */
  predicate ValidDate(d: Date) {
    1 <= d.year <= 9999 && 1 <= d.month <= 12 && 1 <= d.day <= DaysInMonth(d.year, d.month)
  }

  predicate ValidDateTime(t: DateTime) {
    ValidDate(t.date) && 0 <= t.hour < 24 && 0 <= t.minute < 60 && 0 <= t.second < 60
  }

  // ---------------------------------------------------------------- formatting

  function Pad2(n: int): string
    requires 0 <= n < 100
  {
    [DigitChar(n / 10), DigitChar(n % 10)]
  }

  function Pad4(n: int): string
    requires 0 <= n < 10000
  {
    Pad2(n / 100) + Pad2(n % 100)
  }

  /** `date.isoformat()`: `YYYY-MM-DD`. */
  function FormatDate(d: Date): (s: string)
    requires ValidDate(d)
    ensures |s| == 10
  {
    Pad4(d.year) + "-" + Pad2(d.month) + "-" + Pad2(d.day)
  }

  /** `HH:MM:SS`. */
  function FormatClock(t: DateTime): (s: string)
    requires ValidDateTime(t)
    ensures |s| == 8
  {
    Pad2(t.hour) + ":" + Pad2(t.minute) + ":" + Pad2(t.second)
  }

  /** `strftime("%Y-%m-%dT%H:%M:%SZ")`: the canonical form `iso` produces. */
  function FormatIso(t: DateTime): (s: string)
    requires ValidDateTime(t)
    ensures |s| == 20
  {
    FormatDate(t.date) + "T" + FormatClock(t) + "Z"
  }

  /** `strftime("%Y-%m-%d %H:%M:%S %Z")` of a UTC date-time, as the Docs summary shows it. */
  function FormatDisplay(t: DateTime): (s: string)
    requires ValidDateTime(t)
    ensures |s| == 23 && s[10] == ' ' && s[19..] == " UTC"
  {
    FormatDate(t.date) + " " + FormatClock(t) + " UTC"
  }

  /** The displayed text names the same instant: its date and clock fields parse back to `t`. */
  lemma DisplayRoundTrip(t: DateTime)
    requires ValidDateTime(t)
    ensures ParseDate(FormatDisplay(t)[..10]) == Some(t.date)
    ensures ParseClock(FormatDisplay(t)[11..19]) == Some((t.hour, t.minute, t.second))
  {
    var s := FormatDisplay(t);
    assert s[..10] == FormatDate(t.date);
    assert s[11..19] == FormatClock(t);
    DateRoundTrip(t.date);
    ClockRoundTrip(t);
  }

  // ------------------------------------------------------------------- parsing

  predicate AllDigits(s: string) {
    forall i :: 0 <= i < |s| ==> IsDigit(s[i])
  }

  function Num2(s: string): int
    requires |s| == 2 && AllDigits(s)
  {
    DigitValue(s[0]) * 10 + DigitValue(s[1])
  }

  function Num4(s: string): int
    requires |s| == 4 && AllDigits(s)
  {
    Num2(s[..2]) * 100 + Num2(s[2..])
  }

  /** `date.fromisoformat` on exactly `YYYY-MM-DD`; None where Python raises ValueError. */
  function ParseDate(s: string): (r: Option<Date>)
    ensures r.Some? ==> ValidDate(r.value)
  {
    if |s| == 10 && s[4] == '-' && s[7] == '-'
       && AllDigits(s[..4]) && AllDigits(s[5..7]) && AllDigits(s[8..])
    then
      var d := Date(Num4(s[..4]), Num2(s[5..7]), Num2(s[8..]));
      if ValidDate(d) then Some(d) else None
    else None
  }

  /** `HH:MM:SS` with hour below 24 and minute and second below 60. */
  function ParseClock(s: string): Option<(int, int, int)>
  {
    if |s| == 8 && s[2] == ':' && s[5] == ':'
       && AllDigits(s[..2]) && AllDigits(s[3..5]) && AllDigits(s[6..])
       && Num2(s[..2]) < 24 && Num2(s[3..5]) < 60 && Num2(s[6..]) < 60
    then Some((Num2(s[..2]), Num2(s[3..5]), Num2(s[6..])))
    else None
  }

  /** Index of the first `+` or `-` of `s`, or `|s|`. */
  function SignIndex(s: string): (k: nat)
    ensures k <= |s|
    ensures forall i :: 0 <= i < k ==> s[i] != '+' && s[i] != '-'
  {
    if s == [] || s[0] == '+' || s[0] == '-' then 0 else 1 + SignIndex(s[1..])
  }

  /** `+HH:MM` or `-HH:MM`, less than a day. */
  predicate ValidOffset(tz: string) {
    |tz| == 6 && (tz[0] == '+' || tz[0] == '-') && tz[3] == ':'
    && AllDigits(tz[1..3]) && AllDigits(tz[4..]) && Num2(tz[1..3]) < 24 && Num2(tz[4..]) < 60
  }

  /** What may follow the seconds: an optional fraction of 3 or 6 digits, then an optional offset. */
  predicate ValidTail(rest: string) {
    var k := SignIndex(rest);
    var frac, tz := rest[..k], rest[k..];
    && (frac == "" || (frac[0] == '.' && (|frac| == 4 || |frac| == 7) && AllDigits(frac[1..])))
    && (tz == "" || ValidOffset(tz))
  }

  /** `datetime.fromisoformat` on the forms listed at the top of this module. */
  function FromIsoFormat(s: string): (r: Option<DateTime>)
    ensures r.Some? ==> ValidDateTime(r.value)
  {
    if |s| == 10 then
      match ParseDate(s)
      case Some(d) => Some(DateTime(d, 0, 0, 0))
      case None => None
    else if |s| >= 19 then
      match (ParseDate(s[..10]), ParseClock(s[11..19]))
      case (Some(d), Some(c)) => if ValidTail(s[19..]) then Some(DateTime(d, c.0, c.1, c.2)) else None
      case _ => None
    else None
  }

  /** Python's `s.replace("Z", "+00:00")`. */
  function ReplaceZ(s: string): string {
    if s == [] then [] else (if s[0] == 'Z' then "+00:00" else [s[0]]) + ReplaceZ(s[1..])
  }

  /** `fromisoformat(s.replace("Z", "+00:00"))`, None where it raises: the parse of `iso` and `parse_ts`. */
  function ParseIso(s: string): (r: Option<DateTime>)
    ensures r.Some? ==> ValidDateTime(r.value)
  {
    FromIsoFormat(ReplaceZ(s))
  }

  /** `iso(s)`: "" for empty input, the canonical form of a parsable one, the input itself otherwise. */
  function Iso(s: string): string {
    if s == "" then ""
    else match ParseIso(s)
      case Some(t) => FormatIso(t)
      case None => s
  }

  /** A string in the canonical form that `iso` produces. */
  ghost predicate IsCanonical(s: string) {
    exists t :: ValidDateTime(t) && s == FormatIso(t)
  }

  // -------------------------------------------------------------- round trips

  lemma Pad2RoundTrip(n: int)
    requires 0 <= n < 100
    ensures AllDigits(Pad2(n)) && Num2(Pad2(n)) == n
  {
  }

  lemma Pad4RoundTrip(n: int)
    requires 0 <= n < 10000
    ensures AllDigits(Pad4(n)) && Num4(Pad4(n)) == n
  {
    Pad2RoundTrip(n / 100);
    Pad2RoundTrip(n % 100);
    assert Pad4(n)[..2] == Pad2(n / 100);
    assert Pad4(n)[2..] == Pad2(n % 100);
  }

  /** Formatting a date and reading it back gives the same date. */
  lemma DateRoundTrip(d: Date)
    requires ValidDate(d)
    ensures ParseDate(FormatDate(d)) == Some(d)
  {
    var s := FormatDate(d);
    Pad4RoundTrip(d.year);
    Pad2RoundTrip(d.month);
    Pad2RoundTrip(d.day);
    assert s[..4] == Pad4(d.year);
    assert s[5..7] == Pad2(d.month);
    assert s[8..] == Pad2(d.day);
  }

  lemma ClockRoundTrip(t: DateTime)
    requires ValidDateTime(t)
    ensures ParseClock(FormatClock(t)) == Some((t.hour, t.minute, t.second))
  {
    var s := FormatClock(t);
    Pad2RoundTrip(t.hour);
    Pad2RoundTrip(t.minute);
    Pad2RoundTrip(t.second);
    assert s[..2] == Pad2(t.hour);
    assert s[3..5] == Pad2(t.minute);
    assert s[6..] == Pad2(t.second);
  }

  lemma {:induction false} ReplaceZAppend(a: string, b: string)
    ensures ReplaceZ(a + b) == ReplaceZ(a) + ReplaceZ(b)
  {
    if a == [] {
      assert a + b == b;
    } else {
      var c := a + b;
      assert c[0] == a[0];
      assert c[1..] == a[1..] + b;
      ReplaceZAppend(a[1..], b);
      var head := if a[0] == 'Z' then "+00:00" else [a[0]];
      calc {
        ReplaceZ(c);
        head + ReplaceZ(c[1..]);
        head + (ReplaceZ(a[1..]) + ReplaceZ(b));
        (head + ReplaceZ(a[1..])) + ReplaceZ(b);
        ReplaceZ(a) + ReplaceZ(b);
      }
    }
  }

  lemma {:induction false} ReplaceZNoZ(s: string)
    requires 'Z' !in s
    ensures ReplaceZ(s) == s
  {
    if s != [] {
      ReplaceZNoZ(s[1..]);
      assert s == [s[0]] + s[1..];
    }
  }

  /** The canonical form parses back to the date-time it was made from. */
  lemma IsoRoundTrip(t: DateTime)
    requires ValidDateTime(t)
    ensures ParseIso(FormatIso(t)) == Some(t)
  {
    DateRoundTrip(t.date);
    ClockRoundTrip(t);
    ParseDateAndClock(FormatDate(t.date), FormatClock(t), t.date, t.hour, t.minute, t.second);
  }

  /** `iso` keeps the empty string empty and never empties anything else. */
  lemma IsoEmpty(s: string)
    ensures Iso(s) == "" <==> s == ""
  {
  }

  /** `iso` either produces the canonical form or returns an unparsable input unchanged. */
  lemma IsoShape(s: string)
    ensures s != "" && ParseIso(s).None? ==> Iso(s) == s
    ensures ParseIso(s).Some? ==> IsCanonical(Iso(s)) && ParseIso(Iso(s)) == ParseIso(s)
  {
    if ParseIso(s).Some? {
      IsoRoundTrip(ParseIso(s).value);
    }
  }

  /** Normalising twice is normalising once. */
  lemma IsoIdempotent(s: string)
    ensures Iso(Iso(s)) == Iso(s)
  {
    if s != "" && ParseIso(s).Some? {
      IsoRoundTrip(ParseIso(s).value);
    }
  }

  // --------------------------------------------------------------- ordering

  predicate DateBefore(a: Date, b: Date) {
    a.year < b.year
    || (a.year == b.year && (a.month < b.month || (a.month == b.month && a.day < b.day)))
  }

  /** Python's `a < b` on two UTC date-times: chronological order. */
  predicate Before(a: DateTime, b: DateTime) {
    DateBefore(a.date, b.date)
    || (a.date == b.date
        && (a.hour < b.hour
            || (a.hour == b.hour && (a.minute < b.minute || (a.minute == b.minute && a.second < b.second)))))
  }

  /** A number that orders valid date-times chronologically (a mixed-radix reading of the fields). */
  function Rank(t: DateTime): int {
    ((((t.date.year * 13 + t.date.month) * 32 + t.date.day) * 24 + t.hour) * 60 + t.minute) * 60 + t.second
  }

  /** Ranks order date-times exactly as `Before` does, and tell different date-times apart. */
  lemma RankOrder(a: DateTime, b: DateTime)
    requires ValidDateTime(a) && ValidDateTime(b)
    ensures Rank(a) >= 0
    ensures Before(a, b) <==> Rank(a) < Rank(b)
    ensures a == b <==> Rank(a) == Rank(b)
  {
  }

  // ------------------------------------------------------ ordinals and windows

  function DaysInYear(y: int): int {
    if IsLeap(y) then 366 else 365
  }

  function DaysBeforeYear(y: int): nat
    requires y >= 1
  {
    if y == 1 then 0 else DaysBeforeYear(y - 1) + DaysInYear(y - 1)
  }

  function DaysBeforeMonth(y: int, m: int): nat
    requires 1 <= m <= 12
  {
    [0, 31, 59, 90, 120, 151, 181, 212, 243, 273, 304, 334][m - 1] + (if m > 2 && IsLeap(y) then 1 else 0)
  }

  lemma MonthStep(y: int, m: int)
    requires 1 <= m <= 12
    ensures DaysBeforeMonth(y, m) + DaysInMonth(y, m) == if m == 12 then DaysInYear(y) else DaysBeforeMonth(y, m + 1)
  {
  }

  /** `date.toordinal()`: 0001-01-01 is day 1. */
  function Ordinal(d: Date): int
    requires ValidDate(d)
  {
    DaysBeforeYear(d.year) + DaysBeforeMonth(d.year, d.month) + d.day
  }

  /** The day before `d`. */
  function PrevDay(d: Date): (r: Date)
    requires ValidDate(d) && d != Date(1, 1, 1)
    ensures ValidDate(r) && Ordinal(r) == Ordinal(d) - 1
  {
    if d.day > 1 then Date(d.year, d.month, d.day - 1)
    else if d.month > 1 then
      MonthStep(d.year, d.month - 1);
      Date(d.year, d.month - 1, DaysInMonth(d.year, d.month - 1))
    else
      MonthStep(d.year - 1, 12);
      Date(d.year - 1, 12, 31)
  }

  /** `d - timedelta(days=n)`; None where Python raises OverflowError (before 0001-01-01). */
  function SubDays(d: Date, n: nat): (r: Option<Date>)
    requires ValidDate(d)
    ensures r.Some? <==> n < Ordinal(d)
    ensures r.Some? ==> ValidDate(r.value) && Ordinal(r.value) == Ordinal(d) - n
    decreases n
  {
    if n == 0 then Some(d)
    else if d == Date(1, 1, 1) then None
    else SubDays(PrevDay(d), n - 1)
  }

  /** A `(since, until)` pair of `YYYY-MM-DD` strings, as the command line gives them. */
  datatype Window = Window(since: string, until: string)

  /** `default_range()` with `today` as input: 182 days back from today, through today. */
  function DefaultRange(today: Date): Option<Window>
    requires ValidDate(today)
  {
    match SubDays(today, 182)
    case Some(s) => Some(Window(FormatDate(s), FormatDate(today)))
    case None => None
  }

  /** The default window ends today and starts exactly 182 days earlier. */
  lemma DefaultRangeSpan(today: Date)
    requires ValidDate(today)
    ensures DefaultRange(today).Some? <==> Ordinal(today) > 182
    ensures DefaultRange(today).Some? ==>
      var w := DefaultRange(today).value;
      && ParseDate(w.until) == Some(today)
      && ParseDate(w.since).Some?
      && Ordinal(ParseDate(w.since).value) == Ordinal(today) - 182
  {
    DateRoundTrip(today);
    if SubDays(today, 182).Some? {
      DateRoundTrip(SubDays(today, 182).value);
    }
  }

  /** `if not since or not until: since, until = default_range()` — a missing bound discards the other. */
  function ResolveWindow(since: string, until: string, today: Date): (w: Option<Window>)
    requires ValidDate(today)
    ensures since != "" && until != "" ==> w == Some(Window(since, until))
    ensures since == "" || until == "" ==> w == DefaultRange(today)
  {
    if since == "" || until == "" then DefaultRange(today) else Some(Window(since, until))
  }

  /**
   * The window a run uses: the caller's bounds when both are given;
   * otherwise the default window, which ends today and starts 182 days
   * earlier (and does not exist when that would fall before year 1).
   */
  lemma ResolveWindowMeaning(since: string, until: string, today: Date)
    requires ValidDate(today)
    ensures since != "" && until != "" ==> ResolveWindow(since, until, today) == Some(Window(since, until))
    ensures since == "" || until == "" ==>
      var w := ResolveWindow(since, until, today);
      && (w.Some? <==> Ordinal(today) > 182)
      && (w.Some? ==>
            && ParseDate(w.value.until) == Some(today)
            && ParseDate(w.value.since).Some?
            && Ordinal(ParseDate(w.value.since).value) == Ordinal(today) - 182)
  {
    DefaultRangeSpan(today);
  }

  /** The instants sent to the APIs: `{since}T00:00:00Z` and `{until}T23:59:59Z`. */
  function QueryBounds(w: Window): (string, string) {
    (w.since + "T00:00:00Z", w.until + "T23:59:59Z")
  }

  /** A string that parses as a date holds no `Z`. */
  lemma ParsedDateHasNoZ(x: string)
    requires ParseDate(x).Some?
    ensures 'Z' !in x
  {
    assert forall i :: 0 <= i < 4 ==> x[i] == x[..4][i];
    assert forall i :: 5 <= i < 7 ==> x[i] == x[5..7][i - 5];
    assert forall i :: 8 <= i < 10 ==> x[i] == x[8..][i - 8];
  }

  /** A string that parses as a clock time holds no `Z`. */
  lemma ParsedClockHasNoZ(clock: string)
    requires ParseClock(clock).Some?
    ensures 'Z' !in clock
  {
    assert forall i :: 0 <= i < 2 ==> clock[i] == clock[..2][i];
    assert forall i :: 3 <= i < 5 ==> clock[i] == clock[3..5][i - 3];
    assert forall i :: 6 <= i < 8 ==> clock[i] == clock[6..][i - 6];
  }

  /** A trailing `Z` of a string without other `Z`s becomes the UTC offset. */
  lemma ReplaceFinalZ(head: string)
    requires 'Z' !in head
    ensures ReplaceZ(head + "Z") == head + "+00:00"
  {
    ReplaceZNoZ(head);
    ReplaceZAppend(head, "Z");
  }

  lemma UtcTail()
    ensures ValidTail("+00:00")
  {
    assert SignIndex("+00:00") == 0;
    assert AllDigits("00");
  }

  /** A date, one separator, a clock time and a valid tail parse to that date at that time. */
  lemma FromIsoFormatJoin(ds: string, sep: char, cs: string, tail: string)
    requires ParseDate(ds).Some? && ParseClock(cs).Some? && ValidTail(tail)
    ensures var c := ParseClock(cs).value;
      FromIsoFormat(ds + [sep] + cs + tail) == Some(DateTime(ParseDate(ds).value, c.0, c.1, c.2))
  {
    var s := ds + [sep] + cs + tail;
    assert |ds| == 10 && |cs| == 8;
    assert s[..10] == ds && s[11..19] == cs && s[19..] == tail;
  }

  /** A date followed by a clock time and `Z` parses to that date at that time. */
  lemma ParseDateAndClock(x: string, clock: string, d: Date, h: int, m: int, sec: int)
    requires ParseDate(x) == Some(d) && ParseClock(clock) == Some((h, m, sec))
    ensures ParseIso(x + "T" + clock + "Z") == Some(DateTime(d, h, m, sec))
  {
    ParsedDateHasNoZ(x);
    ParsedClockHasNoZ(clock);
    var head := x + "T" + clock;
    ReplaceFinalZ(head);
    UtcTail();
    FromIsoFormatJoin(x, 'T', clock, "+00:00");
    assert x + ['T'] + clock + "+00:00" == head + "+00:00";
  }

  /** For a window of valid dates, the bounds parse to the start of `since` and the last second of `until`. */
  lemma QueryBoundsSpan(w: Window, s: Date, u: Date)
    requires ParseDate(w.since) == Some(s) && ParseDate(w.until) == Some(u)
    ensures ParseIso(QueryBounds(w).0) == Some(DateTime(s, 0, 0, 0))
    ensures ParseIso(QueryBounds(w).1) == Some(DateTime(u, 23, 59, 59))
  {
    StartBound(w, s);
    EndBound(w, u);
  }

  lemma StartBound(w: Window, s: Date)
    requires ParseDate(w.since) == Some(s)
    ensures ParseIso(QueryBounds(w).0) == Some(DateTime(s, 0, 0, 0))
  {
    assert AllDigits("00");
    assert ParseClock("00:00:00") == Some((0, 0, 0));
    ParseDateAndClock(w.since, "00:00:00", s, 0, 0, 0);
    assert QueryBounds(w).0 == w.since + "T" + "00:00:00" + "Z";
  }

  lemma EndBound(w: Window, u: Date)
    requires ParseDate(w.until) == Some(u)
    ensures ParseIso(QueryBounds(w).1) == Some(DateTime(u, 23, 59, 59))
  {
    assert AllDigits("23") && AllDigits("59");
    assert ParseClock("23:59:59") == Some((23, 59, 59));
    ParseDateAndClock(w.until, "23:59:59", u, 23, 59, 59);
    assert QueryBounds(w).1 == w.until + "T" + "23:59:59" + "Z";
  }

  // ------------------------------------------------------------------- weeks

  /** `date.weekday()`: Monday is 0 (0001-01-01 was a Monday). */
  function Weekday(d: Date): (w: int)
    requires ValidDate(d)
    ensures 0 <= w < 7
  {
    (Ordinal(d) + 6) % 7
  }

  /** Day of the year, 1 for January 1st. */
  function DayOfYear(d: Date): (n: int)
    requires ValidDate(d)
    ensures 1 <= n <= 366
  {
    MonthStep(d.year, d.month);
    DaysBeforeMonth(d.year, d.month) + d.day
  }

  /** strftime's `%W`: the week of the year, weeks starting on Monday; days before the first Monday are week 0. */
  function WeekOfYear(d: Date): (w: int)
    requires ValidDate(d)
    ensures 0 <= w <= 53
  {
    (DayOfYear(d) - 1 + 7 - Weekday(d)) / 7
  }

  /** Week numbers step up exactly on Mondays: the day before a Monday is in the previous week, any other day shares the week of its predecessor. */
  lemma WeekStartsOnMonday(d: Date)
    requires ValidDate(d) && !(d.month == 1 && d.day == 1)
    ensures WeekOfYear(d) == WeekOfYear(PrevDay(d)) + (if Weekday(d) == 0 then 1 else 0)
  {
    var p := PrevDay(d);
    assert p.year == d.year;
    if d.day == 1 {
      MonthStep(d.year, d.month - 1);
    }
    assert DayOfYear(p) == DayOfYear(d) - 1;
    assert Weekday(p) == (Weekday(d) + 6) % 7;
  }
}
