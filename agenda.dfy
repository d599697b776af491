/**
 * The date helpers of the agenda view: `YYYY-MM-DD` strings read into and
 * written from local days, day shifts and differences, ISO 8601 week
 * values (`YYYY-Www`, the week date of section 4.1.4 of ISO 8601:2004), the
 * list view's range and the events it keeps.
 *
 * A `Date` these helpers build at local midnight is represented by its
 * local day number (days since 0000-01-01, see `Civil`), in a host time
 * zone that is a fixed offset `tz` in milliseconds east of UTC.
 */
module Agenda {
  import opened Base
  import opened Lists
  import opened Text
  import opened Civil
  import opened JsTime

  // ---------------------------------------------------------------- YYYY-MM-DD

  /** `Number(parts[i])`, with a missing part read as `NaN` (`None`). */
  function NumberAt(parts: seq<string>, i: nat): Option<nat> {
    if i < |parts| then ToNumber(parts[i]) else None
  }

  /** The number is neither 0 nor `NaN`, so `!n` is false. */
  predicate Truthy(n: Option<nat>) {
    n.Some? && n.value != 0
  }

  /**
   * `parseYMD`: the first three `-`-separated parts as numbers; none when
   * one is 0 or not a number, otherwise the local day `new Date(y, m - 1, d)`
   * falls on, out-of-range months and days rolling over.
   */
  function ParseYmd(s: string): Option<int> {
    var parts := SplitOn(s, '-');
    var y := NumberAt(parts, 0);
    var m := NumberAt(parts, 1);
    var d := NumberAt(parts, 2);
    if Truthy(y) && Truthy(m) && Truthy(d) then Some(MakeDay(FullYear(y.value), m.value - 1, d.value))
    else None
  }

  /** `toDateInput`: the local year, then the month and the day padded to two digits. */
  function ToDateInput(day: int): string {
    var d := CivilOf(day);
    IntToString(d.year) + "-" + Pad2(d.month) + "-" + Pad2(d.day)
  }

  /** The day's year reads back as itself: from 100 on, `new Date(y, ...)` takes it literally. */
  predicate Representable(day: int) {
    CivilOf(day).year >= 100
  }

  /** A non-empty digit string reads as its value and holds no separator. */
  lemma DigitsNumber(x: string)
    requires x != [] && AllDigits(x)
    ensures ToNumber(x) == Some(DigitsValue(x))
    ensures '-' !in x && 'W' !in x
  {
    assert IsTrimmed(JsSpace, x) by {
      assert IsDigit(x[0]) && IsDigit(x[|x| - 1]);
    }
    TrimTrimmed(JsSpace, x);
    NoDash(x);
  }

  /** Three digit fields joined by `-` split back into themselves. */
  lemma SplitThree(a: string, b: string, c: string)
    requires a != [] && AllDigits(a) && b != [] && AllDigits(b) && c != [] && AllDigits(c)
    ensures SplitOn(a + "-" + b + "-" + c, '-') == [a, b, c]
  {
    NoDash(a);
    NoDash(b);
    NoDash(c);
    JoinCons(b, [c], "-");
    JoinCons(a, [b, c], "-");
    assert [a] + [b, c] == [a, b, c];
    assert a + "-" + (b + "-" + c) == a + "-" + b + "-" + c;
    SplitJoin([a, b, c], '-');
  }

  lemma NoDash(x: string)
    requires AllDigits(x)
    ensures '-' !in x && 'W' !in x
  {
    assert forall i :: 0 <= i < |x| ==> IsDigit(x[i]);
  }

  /** Three non-zero digit fields read as the day `MakeDay` gives for them. */
  lemma ParseFields(a: string, b: string, c: string)
    requires a != [] && AllDigits(a) && b != [] && AllDigits(b) && c != [] && AllDigits(c)
    requires DigitsValue(a) > 0 && DigitsValue(b) > 0 && DigitsValue(c) > 0
    ensures ParseYmd(a + "-" + b + "-" + c) == Some(MakeDay(FullYear(DigitsValue(a)), DigitsValue(b) - 1, DigitsValue(c)))
  {
    var parts := SplitOn(a + "-" + b + "-" + c, '-');
    SplitThree(a, b, c);
    DigitsNumber(a);
    DigitsNumber(b);
    DigitsNumber(c);
    assert NumberAt(parts, 0) == Some(DigitsValue(a));
    assert NumberAt(parts, 1) == Some(DigitsValue(b));
    assert NumberAt(parts, 2) == Some(DigitsValue(c));
  }

  /** Reading back what `toDateInput` wrote gives the same day. */
  lemma ParseToDateInput(day: int)
    requires Representable(day)
    ensures ParseYmd(ToDateInput(day)) == Some(day)
  {
    ReadDate(CivilOf(day));
  }

  /** A valid date from year 100 on, written out, reads back as its day number. */
  lemma ReadDate(d: Date)
    requires ValidDate(d) && d.year >= 100
    ensures ParseYmd(IntToString(d.year) + "-" + Pad2(d.month) + "-" + Pad2(d.day)) == Some(DayNumber(d))
  {
    assert IntToString(d.year) == NatToString(d.year);
    ParseFields(NatToString(d.year), Pad2(d.month), Pad2(d.day));
    MakeDayInRange(d.year, d.month - 1, d.day);
    assert Date(d.year, d.month - 1 + 1, d.day) == d;
  }

  /**
   * Shifting and differencing day strings need only a way to read a string as
   * a day and to write a day back; `AddDays` and `DiffDays` use `ParseYmd`
   * and `ToDateInput`.
   */
  function ShiftText(read: string -> Option<int>, write: int -> string, s: string, days: int): string {
    match read(s)
    case None => s
    case Some(n) => write(n + days)
  }

  function DiffText(read: string -> Option<int>, start: string, end: string): int {
    match (read(start), read(end))
    case (Some(s), Some(e)) => e - s
    case _ => 0
  }

  /** Writing any day satisfying `ok` and reading it back gives that day. */
  ghost predicate ReadsBack(read: string -> Option<int>, write: int -> string, ok: int -> bool) {
    forall day :: ok(day) ==> read(write(day)) == Some(day)
  }

  lemma ShiftWritten(read: string -> Option<int>, write: int -> string, ok: int -> bool, day: int, k: int, m: int)
    requires ReadsBack(read, write, ok) && ok(day) && m == day + k
    ensures ShiftText(read, write, write(day), k) == write(m)
  {
  }

  lemma DiffWritten(read: string -> Option<int>, write: int -> string, ok: int -> bool, a: int, b: int)
    requires ReadsBack(read, write, ok) && ok(a) && ok(b)
    ensures DiffText(read, write(a), write(b)) == b - a
  {
  }

  /** `addDays`: an unreadable string is returned as it is; otherwise the day `days` later, written out. */
  function AddDays(s: string, days: int): (r: string)
    ensures ParseYmd(s).None? ==> r == s
  {
    ShiftText(ParseYmd, ToDateInput, s, days)
  }

  /**
   * `diffDays`: the whole days from `start` to `end`, 0 when either is
   * unreadable.  Both are local midnights in a fixed offset, so the
   * milliseconds between them are a whole number of days and rounding
   * changes nothing.
   */
  function DiffDays(start: string, end: string): (r: int)
    ensures ParseYmd(start).None? || ParseYmd(end).None? ==> r == 0
  {
    DiffText(ParseYmd, start, end)
  }

  lemma DateInputReadsBack()
    ensures ReadsBack(ParseYmd, ToDateInput, Representable)
  {
    forall day | Representable(day) ensures ParseYmd(ToDateInput(day)) == Some(day) {
      ParseToDateInput(day);
    }
  }

  /** A written day shifted by `k` is the day `k` later, written. */
  lemma AddDaysWritten(day: int, k: int, m: int)
    requires Representable(day) && m == day + k
    ensures AddDays(ToDateInput(day), k) == ToDateInput(m)
  {
    DateInputReadsBack();
    ShiftWritten(ParseYmd, ToDateInput, Representable, day, k, m);
  }

  /** The difference of two written days is the difference of the days. */
  lemma DiffDaysWritten(a: int, b: int)
    requires Representable(a) && Representable(b)
    ensures DiffDays(ToDateInput(a), ToDateInput(b)) == b - a
  {
    DateInputReadsBack();
    DiffWritten(ParseYmd, ToDateInput, Representable, a, b);
  }

  /** Shifting a written day forth and back returns it, and the difference is the shift. */
  lemma ShiftBack(read: string -> Option<int>, write: int -> string, ok: int -> bool, day: int, k: int)
    requires ReadsBack(read, write, ok) && ok(day) && ok(day + k)
    ensures ShiftText(read, write, ShiftText(read, write, write(day), k), -k) == write(day)
    ensures DiffText(read, write(day), ShiftText(read, write, write(day), k)) == k
  {
    assert read(write(day + k)) == Some(day + k);
    assert day + k + -k == day;
  }

  lemma AddDaysRoundTrip(day: int, k: int)
    requires Representable(day) && Representable(day + k)
    ensures AddDays(AddDays(ToDateInput(day), k), -k) == ToDateInput(day)
    ensures DiffDays(ToDateInput(day), AddDays(ToDateInput(day), k)) == k
  {
    DateInputReadsBack();
    ShiftBack(ParseYmd, ToDateInput, Representable, day, k);
  }

  /** Shifting both ends of a range by the same amount keeps their difference. */
  lemma ShiftSpan(read: string -> Option<int>, write: int -> string, ok: int -> bool, a: int, b: int, k: int)
    requires ReadsBack(read, write, ok) && ok(a) && ok(b) && ok(a + k) && ok(b + k)
    ensures DiffText(read, ShiftText(read, write, write(a), k), ShiftText(read, write, write(b), k)) == DiffText(read, write(a), write(b))
  {
    assert read(write(a + k)) == Some(a + k);
    assert read(write(b + k)) == Some(b + k);
  }

  lemma ShiftKeepsSpan(a: int, b: int, k: int)
    requires Representable(a) && Representable(b) && Representable(a + k) && Representable(b + k)
    ensures DiffDays(AddDays(ToDateInput(a), k), AddDays(ToDateInput(b), k)) == DiffDays(ToDateInput(a), ToDateInput(b))
  {
    DateInputReadsBack();
    ShiftSpan(ParseYmd, ToDateInput, Representable, a, b, k);
  }

  // ---------------------------------------------------------------- ISO weeks

  /** Days since the Monday of the week: `(getDay() + 6) % 7`. */
  function DaysSinceMonday(day: int): (k: int)
    ensures 0 <= k < 7
  {
    (Weekday(day) + 6) % 7
  }

  /** The Thursday of the (Monday-first) week of `day`. */
  function Thursday(day: int): int {
    day - DaysSinceMonday(day) + 3
  }

  function Monday(day: int): int {
    day - DaysSinceMonday(day)
  }

  lemma WeekdayShift(day: int, k: int)
    ensures Weekday(day + 7 * k) == Weekday(day)
  {
  }

  lemma ThursdayIsThursday(day: int)
    ensures Weekday(Thursday(day)) == 4 && Weekday(Monday(day)) == 1
  {
    var k := DaysSinceMonday(day);
    var w := Weekday(day);
    assert (day + 6) % 7 == w;
    assert k == (w + 6) % 7;
    assert Thursday(day) + 6 == day + 6 - k + 3;
  }

  /** A week date: a week-numbering year and a week number. */
  datatype WeekDate = WeekDate(year: int, week: int)

  /**
   * The ISO 8601 week date of `day`: the week belongs to the year of its
   * Thursday, and week 1 is the week holding that year's first Thursday.
   */
  function IsoWeek(day: int): (w: WeekDate)
    ensures 1 <= w.week <= 53
  {
    var t := Thursday(day);
    var y := CivilOf(t).year;
    var jan1 := DayNumber(Date(y, 1, 1));
    YearStart(t);
    WeekDate(y, (t - jan1) / 7 + 1)
  }

  /** A day lies within the 365 or 366 days of its year. */
  lemma YearStart(day: int)
    ensures var y := CivilOf(day).year;
      DayNumber(Date(y, 1, 1)) <= day <= DayNumber(Date(y, 1, 1)) + 365
  {
    var d := CivilOf(day);
    YearPlace(d);
    DaysBeforeNextYear(d.year);
  }

  /** `pad2(week)`, which for a negative number is its plain decimal form. */
  function WeekDigits(w: int): string {
    if w >= 0 then Pad2(w) else IntToString(w)
  }

  /** The `YYYY-Www` text of a week date. */
  function WeekValue(w: WeekDate): string {
    IntToString(w.year) + "-W" + WeekDigits(w.week)
  }

  /** `Math.round(a / b)` for `b > 0`: the nearest integer, halves rounded up. */
  function RoundDiv(a: int, b: int): int
    requires b > 0
  {
    (2 * a + b) / (2 * b)
  }

  const MsPerWeek := 604_800_000

  /**
   * The week date `toWeekInputValue` computes, as written: the instant is
   * moved to the Thursday of its week keeping its time of day, and the week
   * is one more than the rounded number of weeks from January 4 (at
   * midnight) of the Thursday's year.
   */
  function WeekAsWritten(t: int, tz: int): WeekDate {
    var day := LocalDay(t, tz);
    var target := Thursday(day);
    var y := CivilOf(target).year;
    var jan4 := MakeDay(FullYear(y), 0, 4);
    var diff := (target - jan4) * MsPerDay + TimeWithinDay(t + tz);
    WeekDate(y, 1 + RoundDiv(diff, MsPerWeek))
  }

  /** `toWeekInputValue` as written. */
  function ToWeekInputValue(t: int, tz: int): string {
    WeekValue(WeekAsWritten(t, tz))
  }

  /** The week value the week input is meant to show: the ISO 8601 week of the instant's local day. */
  function WeekInput(t: int, tz: int): string {
    WeekValue(IsoWeek(LocalDay(t, tz)))
  }

  /** Rounding weeks counted from January 4 is flooring weeks counted from January 1. */
  lemma RoundFromJan4(q: int, a: int)
    requires 0 <= q && a == (q - 3) * MsPerDay
    ensures RoundDiv(a, MsPerWeek) == q / 7
  {
    var w, r := q / 7, q % 7;
    var n := 2 * a + MsPerWeek;
    assert n == w * (2 * MsPerWeek) + (2 * r + 1) * MsPerDay;
    assert 0 < (2 * r + 1) * MsPerDay < 2 * MsPerWeek;
  }

  /** At local midnight the computation as written gives the ISO 8601 week, for years from 100 on. */
  lemma WeekAsWrittenAtMidnight(t: int, tz: int)
    requires TimeWithinDay(t + tz) == 0
    requires CivilOf(Thursday(LocalDay(t, tz))).year >= 100
    ensures WeekAsWritten(t, tz) == IsoWeek(LocalDay(t, tz))
    ensures ToWeekInputValue(t, tz) == WeekInput(t, tz)
  {
    var target := Thursday(LocalDay(t, tz));
    var y := CivilOf(target).year;
    var jan1 := DayNumber(Date(y, 1, 1));
    var jan4 := MakeDay(FullYear(y), 0, 4);
    MakeDayInRange(y, 0, 4);
    assert jan4 == jan1 + 3;
    YearStart(target);
    RoundFromJan4(target - jan1, (target - jan4) * MsPerDay + TimeWithinDay(t + tz));
  }

  /**
   * Later in the day it need not: on Wednesday 2021-01-06 (day 738161) at
   * 13:00 on a UTC host the Thursday is 3 days and 13 hours after January 4,
   * which rounds to one week, so the value is week 2 although the day is in
   * week 1.
   */
  lemma WeekAsWrittenAfternoon()
    ensures DayNumber(Date(2021, 1, 6)) == 738161
    ensures var t := (738161 - UnixEpochDay) * MsPerDay + 13 * MsPerHour;
      WeekAsWritten(t, 0) == WeekDate(2021, 2) && IsoWeek(LocalDay(t, 0)) == WeekDate(2021, 1)
  {
    var t := (738161 - UnixEpochDay) * MsPerDay + 13 * MsPerHour;
    assert LocalDay(t, 0) == 738161;
    assert TimeWithinDay(t) == 13 * MsPerHour;
    assert Thursday(738161) == 738162;
    assert DayNumber(Date(2021, 1, 7)) == 738162;
    CivilOfDayNumber(Date(2021, 1, 7));
    assert CivilOf(738162).year == 2021;
    MakeDayInRange(2021, 0, 4);
    assert MakeDay(2021, 0, 4) == 738159;
    assert DayNumber(Date(2021, 1, 1)) == 738156;
    assert RoundDiv(3 * MsPerDay + 13 * MsPerHour, MsPerWeek) == 1;
  }

  /**
   * The Monday `weekToDate` settles on from a day: the Monday of its week
   * when it falls on Monday to Thursday, the next Monday otherwise.
   */
  function MondayNear(simple: int): (m: int)
    ensures Weekday(m) == 1
    ensures 1 <= Weekday(simple) <= 4 ==> m == Monday(simple)
    ensures !(1 <= Weekday(simple) <= 4) ==> m == Monday(simple) + 7
  {
    var dow := Weekday(simple);
    if dow <= 4 then simple - dow + 1 else simple + 8 - dow
  }

  /** The year and week texts of a week value: before the first "-W", and after it up to any further "-W". */
  function WeekFields(value: string): (string, Option<string>) {
    match IndexOf(value, "-W")
    case None => (value, None)
    case Some(k) =>
      var rest := value[k + 2..];
      (value[..k], Some(match IndexOf(rest, "-W") case None => rest case Some(j) => rest[..j]))
  }

  /**
   * `weekToDate`: none when the year or the week is 0 or not a number;
   * otherwise the Monday of that ISO week, found from the day
   * `(week - 1) * 7` after January 1.
   */
  function WeekToDate(value: string): (r: Option<int>)
    ensures r.Some? ==> Weekday(r.value) == 1
  {
    var (ys, ws) := WeekFields(value);
    var year := ToNumber(ys);
    var week := if ws.Some? then ToNumber(ws.value) else None;
    if !(Truthy(year) && Truthy(week)) then None
    else Some(WeekStart(year.value, week.value))
  }

  /** The Monday `weekToDate` gives for a year and a week number. */
  function WeekStart(year: int, week: int): (r: int)
    ensures Weekday(r) == 1
  {
    MondayNear(MakeDay(FullYear(year), 0, 1 + (week - 1) * 7))
  }

  /** A year and a week written as digits around "-W" come apart again. */
  lemma WeekFieldsOf(ys: string, wd: string)
    requires ys != [] && AllDigits(ys) && wd != [] && AllDigits(wd)
    ensures WeekFields(ys + "-W" + wd) == (ys, Some(wd))
  {
    var value := ys + "-W" + wd;
    NoDash(ys);
    NoDash(wd);
    Pieces(ys, "-W", wd);
    forall j | 0 <= j < |ys| ensures !OccursAt(value, "-W", j) {
      assert value[j] == ys[j];
    }
    IndexOfFirst(value, "-W", |ys|);
    assert value[|ys| + 2..] == wd && value[..|ys|] == ys;
    assert forall j :: 0 <= j <= |wd| ==> !OccursAt(wd, "-W", j);
    IndexOfLeast(wd, "-W");
  }

  /** A written week date from year 100 on reads back as the day `weekToDate` starts from. */
  lemma ReadWeekValue(y: int, w: int)
    requires y >= 100 && w >= 1
    ensures WeekToDate(WeekValue(WeekDate(y, w))) == Some(WeekStart(y, w))
  {
    var ys, wd := NatToString(y), Pad2(w);
    assert WeekValue(WeekDate(y, w)) == ys + "-W" + wd;
    WeekFieldsOf(ys, wd);
    DigitsNumber(ys);
    DigitsNumber(wd);
  }

  /** From any of the seven days up to a Thursday, `weekToDate`'s step reaches that Thursday's Monday. */
  lemma MondayOfThursday(t: int, r: int, x: int)
    requires Weekday(t) == 4 && 0 <= r < 7 && x == t - r
    ensures MondayNear(x) == t - 3
  {
    assert Weekday(x) == (4 - r + 7) % 7;
  }

  /** Reading back the week value of an instant gives the Monday of its local week. */
  lemma WeekRoundTrip(t: int, tz: int)
    requires CivilOf(Thursday(LocalDay(t, tz))).year >= 100
    ensures WeekToDate(WeekInput(t, tz)) == Some(Monday(LocalDay(t, tz)))
  {
    var day := LocalDay(t, tz);
    var target := Thursday(day);
    var y := CivilOf(target).year;
    var jan1 := DayNumber(Date(y, 1, 1));
    var w := IsoWeek(day);
    YearStart(target);
    var q := target - jan1;
    assert w == WeekDate(y, q / 7 + 1);
    ReadWeekValue(y, w.week);
    assert FullYear(y) == y;
    MakeDayInRange(FullYear(y), 0, 1);
    MakeDayShift(FullYear(y), 0, 1, (w.week - 1) * 7);
    ThursdayIsThursday(day);
    MondayOfThursday(target, q % 7, MakeDay(FullYear(y), 0, 1 + (w.week - 1) * 7));
  }


  // ---------------------------------------------------------------- list range

  /** `listRange`: the picked first and last day (`YYYY-MM-DD`, empty when unset) and whether it applies. */
  datatype ListRange = ListRange(start: string, end: string, enabled: bool)

  /** The range is in force: enabled with both ends set. */
  predicate Active(r: ListRange) {
    r.enabled && r.start != "" && r.end != ""
  }

  /** `listDays`: the number of days the list shows, 7 when no range is in force. */
  function ListDays(r: ListRange): (n: int)
    ensures n >= 1
    ensures !Active(r) ==> n == 7
  {
    if !Active(r) then 7
    else
      var days := DiffDays(r.start, r.end) + 1;
      if days > 1 then days else 1
  }

  /** `listVisibleRange`: from the first day to the day after the last, when the list view has a range. */
  function ListVisibleRange(isListView: bool, r: ListRange): (v: Option<(string, string)>)
    ensures v.Some? <==> isListView && Active(r)
    ensures v.Some? ==> v.value.0 == r.start && v.value.1 == AddDays(r.end, 1)
  {
    if isListView && Active(r) then Some((r.start, AddDays(r.end, 1))) else None
  }

  /** The visible end is the day after the range's last day. */
  lemma VisibleEndExclusive(isListView: bool, day: int, start: string)
    requires Representable(day) && Representable(day + 1)
    requires isListView && start != ""
    ensures var v := ListVisibleRange(isListView, ListRange(start, ToDateInput(day), true));
      v.Some? && DiffDays(ToDateInput(day), v.value.1) == 1
  {
    AddDaysRoundTrip(day, 1);
  }

  /** The range the list view opens with: today and the six days after it, which is a 7-day list. */
  function DefaultRange(today: int): ListRange {
    var start := ToDateInput(today);
    ListRange(start, AddDays(start, 6), true)
  }

  /** The effect that fills a missing range on entering the list view; `today` is the host clock's local day. */
  function EnsureRange(isListView: bool, r: ListRange, today: int): (n: ListRange)
    ensures !isListView || (r.start != "" && r.end != "") ==> n == r
  {
    if !isListView || (r.start != "" && r.end != "") then r else DefaultRange(today)
  }

  lemma DefaultRangeDays(today: int)
    requires Representable(today) && Representable(today + 6)
    ensures ListDays(DefaultRange(today)) == 7
  {
    AddDaysRoundTrip(today, 6);
  }

  /** `start > end` on strings, as `!(start <= end)`. */
  predicate After(a: string, b: string) {
    !StrLe(a, b)
  }

  /**
   * A new start or end: the two ends are swapped when both are set and the
   * start comes after the end, and the range applies exactly when both are set.
   */
  function EditRange(prev: ListRange, start: string, end: string): (r: ListRange)
    ensures r.enabled <==> r.start != "" && r.end != ""
    ensures r.enabled ==> StrLe(r.start, r.end)
    ensures (r.start == start && r.end == end) || (r.start == end && r.end == start)
    ensures start != "" && end != "" && After(start, end) ==> r.start == end && r.end == start
    ensures !(start != "" && end != "" && After(start, end)) ==> r.start == start && r.end == end
  {
    var swap := start != "" && end != "" && After(start, end);
    var (s, e) := if swap then (end, start) else (start, end);
    StrLeTotal(start, end);
    ListRange(s, e, s != "" && e != "")
  }

  /** The start input's change handler. */
  function SetStart(prev: ListRange, nextStart: string): (r: ListRange)
    ensures r == EditRange(prev, nextStart, prev.end)
  {
    EditRange(prev, nextStart, prev.end)
  }

  /** The end input's change handler. */
  function SetEnd(prev: ListRange, nextEnd: string): (r: ListRange)
    ensures r == EditRange(prev, prev.start, nextEnd)
  {
    EditRange(prev, prev.start, nextEnd)
  }

  /** Both ends of a range moved by `k` days, the range in force. */
  function PageRange(r: ListRange, k: int): ListRange {
    ListRange(AddDays(r.start, k), AddDays(r.end, k), true)
  }

  /**
   * The ◀ and ▶ buttons in the list view: both ends move by the range's
   * length (`forward` or back); without a range in force the calendar pages
   * instead and the range stays.
   */
  function Shift(isListView: bool, r: ListRange, forward: bool): (n: ListRange)
    ensures !(isListView && Active(r)) ==> n == r
    ensures isListView && Active(r) ==> n.enabled
  {
    if isListView && Active(r) then PageRange(r, PageStep(r, forward)) else r
  }

  /** The range's length in days, forward or back. */
  function PageStep(r: ListRange, forward: bool): int {
    var shift := DiffDays(r.start, r.end) + 1;
    if forward then shift else -shift
  }

  /** Moving a written range moves both of its days. */
  lemma PageWritten(a: int, b: int, enabled: bool, k: int, a2: int, b2: int)
    requires Representable(a) && Representable(b) && a2 == a + k && b2 == b + k
    ensures PageRange(ListRange(ToDateInput(a), ToDateInput(b), enabled), k) == ListRange(ToDateInput(a2), ToDateInput(b2), true)
  {
    AddDaysWritten(a, k, a2);
    AddDaysWritten(b, k, b2);
  }

  /** Paging a written range by its own length moves it to the adjacent block of days. */
  lemma PagingWritten(isListView: bool, a: int, b: int, forward: bool, a2: int, b2: int)
    requires isListView && Representable(a) && Representable(b)
    requires var s := if forward then b - a + 1 else -(b - a + 1); a2 == a + s && b2 == b + s
    ensures Shift(isListView, ListRange(ToDateInput(a), ToDateInput(b), true), forward) == ListRange(ToDateInput(a2), ToDateInput(b2), true)
  {
    var r := ListRange(ToDateInput(a), ToDateInput(b), true);
    WrittenNonEmpty(a);
    WrittenNonEmpty(b);
    PageStepWritten(a, b, forward, a2 - a);
    PageWritten(a, b, true, PageStep(r, forward), a2, b2);
  }

  /**
   * Paging keeps the range's length and moves its start by that length:
   * `a2` and `b2` are the ends moved by the length, back or forward.
   */
  lemma ShiftKeepsLength(isListView: bool, a: int, b: int, forward: bool, a2: int, b2: int)
    requires isListView
    requires var s := if forward then b - a + 1 else -(b - a + 1); a2 == a + s && b2 == b + s
    requires Representable(a) && Representable(b) && Representable(a2) && Representable(b2)
    ensures var r := ListRange(ToDateInput(a), ToDateInput(b), true);
      var n := Shift(isListView, r, forward);
      DiffDays(n.start, n.end) == DiffDays(r.start, r.end) &&
      DiffDays(r.start, n.start) == (if forward then b - a + 1 else -(b - a + 1))
  {
    var r := ListRange(ToDateInput(a), ToDateInput(b), true);
    var n := Shift(isListView, r, forward);
    PagingWritten(isListView, a, b, forward, a2, b2);
    SpansWritten(a, b, a2, b2, n.start, n.end);
  }

  /** The spans between written days, for a range whose ends are written as `a2` and `b2`. */
  lemma SpansWritten(a: int, b: int, a2: int, b2: int, start: string, end: string)
    requires Representable(a) && Representable(b) && Representable(a2) && Representable(b2)
    requires start == ToDateInput(a2) && end == ToDateInput(b2)
    ensures DiffDays(start, end) == DiffDays(ToDateInput(a), ToDateInput(b)) + (b2 - a2) - (b - a)
    ensures DiffDays(ToDateInput(a), start) == a2 - a
  {
    DiffDaysWritten(a, b);
    DiffDaysWritten(a2, b2);
    DiffDaysWritten(a, a2);
  }

  /** A written day is never the empty string. */
  lemma WrittenNonEmpty(day: int)
    ensures ToDateInput(day) != ""
  {
    var d := CivilOf(day);
    assert |ToDateInput(day)| >= |"-"|;
  }

  lemma PageStepWritten(a: int, b: int, forward: bool, s: int)
    requires Representable(a) && Representable(b)
    requires s == if forward then b - a + 1 else -(b - a + 1)
    ensures PageStep(ListRange(ToDateInput(a), ToDateInput(b), true), forward) == s
  {
    DiffDaysWritten(a, b);
  }

  /** The "today" and reset buttons switch the range off and keep its ends. */
  function Disable(r: ListRange): (n: ListRange)
    ensures n.start == r.start && n.end == r.end && !n.enabled
  {
    r.(enabled := false)
  }

  // ---------------------------------------------------------------- events in the list

  /** The instant of local midnight starting day `day`. */
  function Midnight(day: int, tz: int): (t: int)
    ensures LocalDay(t, tz) == day && TimeWithinDay(t + tz) == 0
  {
    (day - UnixEpochDay) * MsPerDay - tz
  }

  /**
   * `eventsForView`: with a readable range in force in the list view, the
   * events whose start and end are valid instants and that overlap the
   * range (start before the day after its last, end not before its first
   * midnight); otherwise every event.  `startAt` and `endAt` stand for
   * reading an event's times with `new Date(...)`.
   */
  function EventsForView<T(!new)>(events: seq<T>, isListView: bool, r: ListRange, tz: int,
                                  startAt: T -> Option<int>, endAt: T -> Option<int>): (kept: seq<T>)
  {
    if !isListView || !Active(r) || ParseYmd(r.start).None? || ParseYmd(r.end).None? then events
    else
      var lo := Midnight(ParseYmd(r.start).value, tz);
      var hi := Midnight(ParseYmd(r.end).value + 1, tz);
      Filter(events, (ev: T) => startAt(ev).Some? && endAt(ev).Some? && startAt(ev).value < hi && endAt(ev).value >= lo)
  }

  /**
   * The list keeps an event exactly when both its times are valid and it
   * overlaps the days from the range's first to its last; in order.
   */
  lemma EventsForViewOverlap<T(!new)>(events: seq<T>, isListView: bool, a: int, b: int, enabled: bool, tz: int,
                                      startAt: T -> Option<int>, endAt: T -> Option<int>)
    requires Representable(a) && Representable(b)
    ensures var r := ListRange(ToDateInput(a), ToDateInput(b), enabled);
      var kept := EventsForView(events, isListView, r, tz, startAt, endAt);
      (!isListView || !enabled ==> kept == events) &&
      (isListView && enabled ==> forall ev :: ev in kept <==>
         (ev in events && startAt(ev).Some? && endAt(ev).Some? &&
          startAt(ev).value < Midnight(b + 1, tz) && endAt(ev).value >= Midnight(a, tz)))
  {
    ParseToDateInput(a);
    ParseToDateInput(b);
  }
}
