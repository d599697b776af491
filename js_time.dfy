/**
 * JavaScript `Date` arithmetic as the frontend uses it: time values in
 * milliseconds, the local fields of an instant in the host's time zone, the
 * `new Date(y, m, d, ...)` and `Date.UTC` constructors (section 21.4 of
 * ECMA-262), and the compact branch of `parseIcsDateTime` in
 * `useDerivedEvents.ts`.
 *
 * The host time zone is a fixed offset `tz` in milliseconds east of UTC.
 */
module JsTime {
  import opened Base
  import opened Lists
  import opened Text
  import opened Civil
  import Normalizer

  // ---------------------------------------------------------------- local fields

  /** The local day number of an instant. */
  function LocalDay(t: int, tz: int): int {
    DayOfTime(t + tz)
  }

  /** `getFullYear()`, `getMonth() + 1` and `getDate()` of an instant. */
  function LocalDate(t: int, tz: int): Date {
    CivilOf(LocalDay(t, tz))
  }

  /** `getHours()`. */
  function LocalHours(t: int, tz: int): (h: int)
    ensures 0 <= h < 24
  {
    TimeWithinDay(t + tz) / MsPerHour
  }

  /** `getMinutes()`. */
  function LocalMinutes(t: int, tz: int): (m: int)
    ensures 0 <= m < 60
  {
    TimeWithinDay(t + tz) % MsPerHour / MsPerMinute
  }

  /** `getHours() * 60 + getMinutes()`: minutes since local midnight. */
  function LocalMinuteOfDay(t: int, tz: int): (m: int)
    ensures 0 <= m < 24 * 60
  {
    LocalHours(t, tz) * 60 + LocalMinutes(t, tz)
  }

  /** `getDay()`: 0 for Sunday up to 6 for Saturday. */
  function LocalWeekday(t: int, tz: int): (w: int)
    ensures 0 <= w < 7
  {
    Weekday(LocalDay(t, tz))
  }

  // ---------------------------------------------------------------- constructors

  /** The year the multi-argument constructors use: 0 to 99 stand for 1900 to 1999. */
  function FullYear(y: int): int {
    if 0 <= y <= 99 then 1900 + y else y
  }

  /** `MakeDate(MakeDay(y, month0, date), MakeTime(h, m, s, 0))`: wall-clock milliseconds. */
  function WallTime(y: int, month0: int, date: int, h: int, m: int, s: int): int {
    (MakeDay(y, month0, date) - UnixEpochDay) * MsPerDay + h * MsPerHour + m * MsPerMinute + s * 1000
  }

  /** `Date.UTC(y, month0, date, h, m, s)`. */
  function UtcTime(y: int, month0: int, date: int, h: int, m: int, s: int): int {
    WallTime(FullYear(y), month0, date, h, m, s)
  }

  /** `new Date(y, month0, date, h, m, s).getTime()`: the fields read as local time. */
  function LocalTime(y: int, month0: int, date: int, h: int, m: int, s: int, tz: int): int {
    WallTime(FullYear(y), month0, date, h, m, s) - tz
  }

  // ---------------------------------------------------------------- parseIcsDateTime

  predicate IsSeparator(c: char) { c == '-' || c == ':' }

  predicate NotSeparator(c: char) { !IsSeparator(c) }

  /** `value.replace(/[-:]/g, '')`. */
  function StripSeparators(s: string): (r: string)
    ensures forall c :: c in r <==> c in s && NotSeparator(c)
  {
    Filter(s, NotSeparator)
  }

  predicate IsT(c: char) { c == 'T' || c == 't' }
  predicate IsZ(c: char) { c == 'Z' || c == 'z' }

  /** Every character of `s[lo..hi]` is a decimal digit. */
  predicate DigitsAt(s: string, lo: int, hi: int) {
    0 <= lo <= hi <= |s| && forall i :: lo <= i < hi ==> IsDigit(s[i])
  }

  /** What the compact pattern captures; absent time fields read as `00`. */
  datatype CompactParts = CompactParts(
    year: nat, month: nat, day: nat, hour: nat, minute: nat, second: nat, utc: bool)

  /**
   * `/^(\d{4})(\d{2})(\d{2})(?:T(\d{2})(\d{2})(\d{2})?)?(Z)?$/i`: eight date
   * digits, then optionally `T` with four or six time digits, then optionally
   * `Z`, letters in either case.
   */
  function MatchCompact(c: string): (r: Option<CompactParts>)
    ensures r.Some? ==> |c| in {8, 9, 13, 14, 15, 16} && DigitsAt(c, 0, 8)
    ensures r.Some? ==> (r.value.utc <==> IsZ(c[|c| - 1]))
    ensures r.Some? && |c| in {8, 9} ==> r.value.hour == r.value.minute == r.value.second == 0
  {
    var utc := c != [] && IsZ(c[|c| - 1]);
    var b := if utc then c[..|c| - 1] else c;
    if !(|b| == 8 || ((|b| == 13 || |b| == 15) && IsT(b[8]) && DigitsAt(b, 9, |b|))) then None
    else if !DigitsAt(b, 0, 8) then None
    else
      var hh := if |b| > 8 then Normalizer.TwoDigits(b[9], b[10]) else 0;
      var mm := if |b| > 8 then Normalizer.TwoDigits(b[11], b[12]) else 0;
      var ss := if |b| == 15 then Normalizer.TwoDigits(b[13], b[14]) else 0;
      Some(CompactParts(Normalizer.FourDigits(b[0], b[1], b[2], b[3]), Normalizer.TwoDigits(b[4], b[5]),
                        Normalizer.TwoDigits(b[6], b[7]), hh, mm, ss, utc))
  }

  /** The instant the captured fields denote: in UTC with `Z`, in local time otherwise. */
  function PartsTime(p: CompactParts, tz: int): int {
    if p.utc then UtcTime(p.year, p.month - 1, p.day, p.hour, p.minute, p.second)
    else LocalTime(p.year, p.month - 1, p.day, p.hour, p.minute, p.second, tz)
  }

  /**
   * `parseIcsDateTime(raw)?.getTime()` through the compact branch: blank
   * text gives nothing; otherwise the trimmed text without `-` and `:` must
   * match the compact pattern.
   */
  function ParseIcsDateTime(raw: string, tz: int): (r: Option<int>)
    ensures Trim(JsSpace, raw) == [] ==> r.None?
    ensures r.Some? <==> Trim(JsSpace, raw) != [] && MatchCompact(StripSeparators(Trim(JsSpace, raw))).Some?
  {
    var value := Trim(JsSpace, raw);
    if value == [] then None
    else
      match MatchCompact(StripSeparators(value))
      case None => None
      case Some(p) => Some(PartsTime(p, tz))
  }

  // ---------------------------------------------------------------- reading the core's ISO text

  /** Removing separators from text that has none changes nothing. */
  lemma StripNone(s: string)
    requires NoSeparator(s)
    ensures StripSeparators(s) == s
  {
    FilterAll(s, NotSeparator);
  }

  /** No character of `s` is a separator. */
  predicate NoSeparator(s: string) {
    forall i :: 0 <= i < |s| ==> NotSeparator(s[i])
  }

  /** `Separated` adds exactly the separators that stripping removes. */
  lemma StripSeparated(c: string)
    requires Normalizer.CompactShape(c)
    ensures StripSeparators(Normalizer.Separated(c)) == c
  {
    var a, b, d, e, f, g := c[..4], c[4..6], c[6..8], c[9..11], c[11..13], c[13..];
    assert NoSeparator(a) && NoSeparator(b) && NoSeparator(d);
    assert NoSeparator(e) && NoSeparator(f) && NoSeparator(g);
    StripPieces(a, b, d, e, f, g);
    Normalizer.CompactSplit(c);
  }

  /** Stripping the separated shape built from separator-free pieces leaves the pieces and the `T`. */
  lemma StripPieces(a: string, b: string, d: string, e: string, f: string, g: string)
    requires NoSeparator(a) && NoSeparator(b) && NoSeparator(d)
    requires NoSeparator(e) && NoSeparator(f) && NoSeparator(g)
    ensures StripSeparators(a + "-" + b + "-" + d + "T" + e + ":" + f + ":" + g)
            == a + b + d + "T" + e + f + g
  {
    var p1 := a + "-" + b;
    var p2 := p1 + "-" + d;
    var p3 := p2 + "T" + e;
    var p4 := p3 + ":" + f;
    assert StripSeparators(p1) == a + b by {
      StripJoin(a, "-", b); StripNone(a); StripNone(b);
    }
    assert StripSeparators(p2) == a + b + d by {
      StripJoin(p1, "-", d); StripNone(d);
    }
    assert StripSeparators(p3) == a + b + d + "T" + e by {
      StripKeep(p2, "T", e); StripNone(e);
    }
    assert StripSeparators(p4) == a + b + d + "T" + e + f by {
      StripJoin(p3, ":", f); StripNone(f);
    }
    StripJoin(p4, ":", g); StripNone(g);
  }

  /** Stripping `x + sep + y` for a separator `sep` joins the stripped sides. */
  lemma StripJoin(x: string, sep: string, y: string)
    requires |sep| == 1 && IsSeparator(sep[0])
    ensures StripSeparators(x + sep + y) == StripSeparators(x) + StripSeparators(y)
  {
    FilterAppend(x, sep, NotSeparator);
    FilterAppend(x + sep, y, NotSeparator);
    StripSeparator(sep);
  }

  lemma StripSeparator(sep: string)
    requires |sep| == 1 && IsSeparator(sep[0])
    ensures Filter(sep, NotSeparator) == []
  {
    assert sep[1..] == [];
  }

  /** Stripping `x + k + y` for a kept character `k` keeps it between the stripped sides. */
  lemma StripKeep(x: string, k: string, y: string)
    requires |k| == 1 && NotSeparator(k[0])
    ensures StripSeparators(x + k + y) == StripSeparators(x) + k + StripSeparators(y)
  {
    FilterAppend(x, k, NotSeparator);
    FilterAppend(x + k, y, NotSeparator);
    FilterAll(k, NotSeparator);
  }

  /** The fields of a text of the core's compact shape, read without `Z`. */
  function CoreParts(c: string): CompactParts
    requires Normalizer.CompactShape(c)
  {
    CompactParts(
      Normalizer.FourDigits(c[0], c[1], c[2], c[3]), Normalizer.TwoDigits(c[4], c[5]),
      Normalizer.TwoDigits(c[6], c[7]), Normalizer.TwoDigits(c[9], c[10]),
      Normalizer.TwoDigits(c[11], c[12]), Normalizer.TwoDigits(c[13], c[14]), false)
  }

  /** The core's compact shape matches the pattern, with the same fields and no `Z`. */
  lemma MatchCoreCompact(c: string)
    requires Normalizer.CompactShape(c)
    ensures MatchCompact(c) == Some(CoreParts(c))
  {
    assert !IsZ(c[14]);
  }

  /** The captured fields of a wall-clock time with a four-digit year, without `Z`. */
  function FieldsOf(t: Normalizer.DateTime): (p: CompactParts)
    requires Normalizer.ValidDateTime(t) && 0 <= t.date.year
    ensures !p.utc && p.year == t.date.year && p.month == t.date.month && p.day == t.date.day
    ensures p.hour == t.hour && p.minute == t.minute && p.second == t.second
  {
    CompactParts(t.date.year, t.date.month, t.date.day, t.hour, t.minute, t.second, false)
  }

  /**
   * The frontend reads the core's `start_iso`/`end_iso` text back as the
   * fields the core wrote, in the host's time zone; `FieldsTime` gives the
   * instant they denote.
   */
  lemma ReadsCoreIso(t: Normalizer.DateTime, tz: int)
    requires Normalizer.ValidDateTime(t) && 0 <= t.date.year < 10000
    ensures ParseIcsDateTime(Normalizer.RenderIso(t), tz) == Some(PartsTime(FieldsOf(t), tz))
  {
    Normalizer.IsoOfCompact(t);
    RenderedFields(t);
    ParseSeparated(Normalizer.RenderCompact(t), tz);
  }

  /**
   * Those fields read in local time are the core's wall-clock seconds, shifted
   * by the host offset (years from 100 on; the constructors would move years 0
   * to 99 into the 1900s).
   */
  lemma FieldsTime(t: Normalizer.DateTime, tz: int)
    requires Normalizer.ValidDateTime(t) && 100 <= t.date.year
    ensures PartsTime(FieldsOf(t), tz) == Normalizer.LocalSeconds(t) * 1000 - tz
  {
    LocalTimeOfCivil(t, tz);
  }

  /** The fields of the compact rendering of a wall-clock time are that time's fields. */
  lemma RenderedFields(t: Normalizer.DateTime)
    requires Normalizer.ValidDateTime(t) && 0 <= t.date.year < 10000
    ensures Normalizer.CompactShape(Normalizer.RenderCompact(t))
    ensures CoreParts(Normalizer.RenderCompact(t)) == FieldsOf(t)
  {
    Normalizer.CompactRoundTrip(t);
  }

  /** The separated form of a compact text reads as its fields in local time. */
  lemma ParseSeparated(c: string, tz: int)
    requires Normalizer.CompactShape(c)
    ensures ParseIcsDateTime(Normalizer.Separated(c), tz) == Some(PartsTime(CoreParts(c), tz))
  {
    SeparatedTrimmed(c);
    StripSeparated(c);
    MatchCoreCompact(c);
  }

  /** The separated form of a compact text has no white space to trim. */
  lemma SeparatedTrimmed(c: string)
    requires Normalizer.CompactShape(c)
    ensures Trim(JsSpace, Normalizer.Separated(c)) == Normalizer.Separated(c)
  {
    var s := Normalizer.Separated(c);
    assert s[0] == c[0] && s[|s| - 1] == c[14];
    TrimTrimmed(JsSpace, s);
  }

  /** For a real date, the local-time constructor agrees with the core's seconds count. */
  lemma LocalTimeOfCivil(t: Normalizer.DateTime, tz: int)
    requires Normalizer.ValidDateTime(t) && 100 <= t.date.year
    ensures LocalTime(t.date.year, t.date.month - 1, t.date.day, t.hour, t.minute, t.second, tz)
            == Normalizer.LocalSeconds(t) * 1000 - tz
  {
    MakeDayInRange(t.date.year, t.date.month - 1, t.date.day);
  }

  /** The local fields of the instant of a wall-clock time are that time's fields. */
  lemma LocalFieldsOf(t: Normalizer.DateTime, tz: int)
    requires Normalizer.ValidDateTime(t)
    ensures var i := Normalizer.LocalSeconds(t) * 1000 - tz;
      && LocalDay(i, tz) == DayNumber(t.date) && LocalDate(i, tz) == t.date
      && LocalHours(i, tz) == t.hour && LocalMinutes(i, tz) == t.minute
  {
    var i := Normalizer.LocalSeconds(t) * 1000 - tz;
    var rest := t.minute * MsPerMinute + t.second * 1000;
    var tod := t.hour * MsPerHour + rest;
    assert i + tz == (DayNumber(t.date) - UnixEpochDay) * MsPerDay + tod;
    Normalizer.DivModUnique(i + tz, MsPerDay, DayNumber(t.date) - UnixEpochDay, tod);
    Normalizer.DivModUnique(tod, MsPerHour, t.hour, rest);
    Normalizer.DivModUnique(rest, MsPerMinute, t.minute, t.second * 1000);
    CivilOfDayNumber(t.date);
  }
}
