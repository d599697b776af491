/**
 * The normaliser of agendum-core (agendum-core/src/normalizer.rs): each raw
 * event's trimmed summary is split into a course type and a subject by three
 * ordered patterns, its start and end are parsed as ICS date-times, rendered
 * as ISO 8601 local times in a reference UTC offset, and their distance gives
 * the duration.
 *
 * The three regular expressions are modelled as explicit matchers; the
 * reference offset, which the program reads from the host clock, is a
 * parameter.
 */
module Normalizer {
  import opened Base
  import opened Text
  import opened Civil
  import opened IcsParser

  import opened SummaryPatterns

  // ---------------------------------------------------------------- course types

  /** The course-type alternatives shared by the three patterns, in their order. */
  const Tokens: seq<string> :=
    ["CM", "TD", "TP", "CT", "DS", "EXAM", "PROJET", "R\U{00C9}UNION", "REUNION"]

  lemma TokensValid()
    ensures ValidAlternatives(Tokens) && !IsAlternative(Tokens, "AUTRE")
  {
    TokensAreWords();
    AutreIsNoToken();
  }

  lemma TokensAreWords()
    ensures ValidAlternatives(Tokens)
  {
  }

  lemma AutreIsNoToken()
    ensures !IsAlternative(Tokens, "AUTRE")
  {
  }

  /**
   * Whether two folded letters open one of the course types.  Each course type
   * is at least two letters long and no two of them open alike, so the type
   * group is decided by the first two letters of the text where it is tried.
   */
  predicate TokenOpening(a: char, b: char) {
    || (a == 'c' && (b == 'm' || b == 't'))
    || (a == 't' && (b == 'd' || b == 'p'))
    || (a == 'd' && b == 's')
    || (a == 'e' && b == 'x')
    || (a == 'p' && b == 'r')
    || (a == 'r' && (b == '\U{00E9}' || b == 'e'))
  }

  /** The folded first two letters of course type `m`. */
  function Opening(m: nat): (char, char)
    requires m < |Tokens|
  {
    (FoldChar(Tokens[m][0]), FoldChar(Tokens[m][1]))
  }

  lemma OpeningOf(m: nat)
    requires m < |Tokens|
    ensures |Tokens[m]| >= 2 && TokenOpening(Opening(m).0, Opening(m).1)
  {
  }

  lemma OpeningsDistinct(m: nat, n: nat)
    requires m < |Tokens| && n < |Tokens| && Opening(m) == Opening(n)
    ensures m == n
  {
  }

  /** The type group matches only where the text opens like a course type. */
  lemma TypeAtOpening(s: string, i: nat)
    ensures TypeAt(Tokens, s, i).Some? ==> i + 1 < |s| && TokenOpening(FoldChar(s[i]), FoldChar(s[i + 1]))
  {
    AltFromSpec(Tokens, s, i, 0);
    if TypeAt(Tokens, s, i).Some? {
      var m := AltFrom(Tokens, s, i, 0).value;
      OpeningOf(m);
      assert FoldChar(s[i + 1]) == FoldChar(Tokens[m][1]) by {
        assert Spells(s, i + 1, Tokens[m][1..]);
      }
    }
  }

  /** Where course type `m` matches, the type group matches it, whatever its place in the list. */
  lemma TypeAtToken(s: string, i: nat, m: nat)
    requires m < |Tokens| && AltMatch(Tokens, s, i, m)
    ensures TypeAt(Tokens, s, i) == Some(|Tokens[m]|)
  {
    AltFromSpec(Tokens, s, i, 0);
    var first := AltFrom(Tokens, s, i, 0).value;
    OpeningOf(m);
    OpeningOf(first);
    assert Opening(first) == Opening(m) by {
      assert Spells(s, i + 1, Tokens[m][1..]);
      assert Spells(s, i + 1, Tokens[first][1..]);
    }
    OpeningsDistinct(first, m);
  }

  // ---------------------------------------------------------------- date-times

  /** A UTC offset in seconds east, within the range chrono's `FixedOffset` accepts. */
  type Offset = o: int | -86400 < o < 86400

  /** A wall-clock date and time with whole seconds. */
  datatype DateTime = DateTime(date: Date, hour: int, minute: int, second: int)

  /** A real date and a time of day; leap seconds are not represented. */
  predicate ValidDateTime(t: DateTime) {
    ValidDate(t.date) && 0 <= t.hour < 24 && 0 <= t.minute < 60 && 0 <= t.second < 60
  }

  /** The number written by two decimal digits. */
  function TwoDigits(a: char, b: char): (n: nat)
    requires IsDigit(a) && IsDigit(b)
    ensures n < 100
  {
    DigitValue(a) * 10 + DigitValue(b)
  }

  /** The number written by four decimal digits. */
  function FourDigits(a: char, b: char, c: char, d: char): (n: nat)
    requires IsDigit(a) && IsDigit(b) && IsDigit(c) && IsDigit(d)
    ensures n < 10000
  {
    TwoDigits(a, b) * 100 + TwoDigits(c, d)
  }

  /** The shape `YYYYMMDDTHHMMSS`: fifteen characters, digits except a `T` in ninth place. */
  predicate CompactShape(s: string) {
    && |s| == 15 && s[8] == 'T'
    && IsDigit(s[0]) && IsDigit(s[1]) && IsDigit(s[2]) && IsDigit(s[3])
    && IsDigit(s[4]) && IsDigit(s[5]) && IsDigit(s[6]) && IsDigit(s[7])
    && IsDigit(s[9]) && IsDigit(s[10]) && IsDigit(s[11]) && IsDigit(s[12])
    && IsDigit(s[13]) && IsDigit(s[14])
  }

  /** `%Y%m%dT%H%M%S` as a strict fifteen-character form, checked for a real date and time. */
  function ParseCompact(s: string): (r: Option<DateTime>)
    ensures r.Some? ==> ValidDateTime(r.value)
  {
    if CompactShape(s) then
      var t := DateTime(Date(FourDigits(s[0], s[1], s[2], s[3]), TwoDigits(s[4], s[5]), TwoDigits(s[6], s[7])),
                        TwoDigits(s[9], s[10]), TwoDigits(s[11], s[12]), TwoDigits(s[13], s[14]));
      if ValidDateTime(t) then Some(t) else None
    else None
  }

  /** The characters `%z` lets stand between the hours and the minutes: `:` and white space. */
  predicate IsOffsetSeparator(c: char) {
    c == ':' || IsSpace(RustSpace, c)
  }

  /** The first index at or after `lo` that does not hold a separator (or `|s|`). */
  function SkipSeparators(s: string, lo: nat): (j: nat)
    requires lo <= |s|
    ensures lo <= j <= |s|
    ensures j < |s| ==> !IsOffsetSeparator(s[j])
    decreases |s| - lo
  {
    if lo < |s| && IsOffsetSeparator(s[lo]) then SkipSeparators(s, lo + 1) else lo
  }

  /**
   * chrono's `%z`: leading white space, a sign `+` or `-`, two hour digits,
   * any run of `:` and white space, two minute digits the first of which is
   * at most 5, and nothing after; the offset in seconds east must be less
   * than a day in magnitude.
   */
  function ParseOffset(z: string): (r: Option<int>)
    ensures r.Some? ==> -86400 < r.value < 86400
  {
    var k := TrimOffset(RustSpace, z);
    if k + 3 <= |z| && (z[k] == '+' || z[k] == '-') && IsDigit(z[k + 1]) && IsDigit(z[k + 2]) then
      var j := SkipSeparators(z, k + 3);
      if j + 2 == |z| && '0' <= z[j] <= '5' && IsDigit(z[j + 1]) then
        var seconds := TwoDigits(z[k + 1], z[k + 2]) * 3600 + TwoDigits(z[j], z[j + 1]) * 60;
        if seconds < 86400 then Some(if z[k] == '-' then -seconds else seconds) else None
      else None
    else None
  }

  /** Skipping white space from `lo` stops at `n` when all before `n` is white space and `n` is not. */
  lemma {:induction false} SkipSpaceTo(s: string, lo: nat, n: nat)
    requires lo <= n <= |s| && AllSpace(RustSpace, s, lo, n)
    requires n == |s| || !IsSpace(RustSpace, s[n])
    ensures SkipSpace(RustSpace, s, lo) == n
    decreases n - lo
  {
    if lo < n {
      SkipSpaceTo(s, lo + 1, n);
    }
  }

  /** Skipping separators from `lo` stops at `n` when all before `n` are separators and `n` is not. */
  lemma {:induction false} SkipSeparatorsTo(s: string, lo: nat, n: nat)
    requires lo <= n <= |s| && forall i :: lo <= i < n ==> IsOffsetSeparator(s[i])
    requires n == |s| || !IsOffsetSeparator(s[n])
    ensures SkipSeparators(s, lo) == n
    decreases n - lo
  {
    if lo < n {
      SkipSeparatorsTo(s, lo + 1, n);
    }
  }

  /** The characters skipped as separators are separators. */
  lemma {:induction false} SkippedSeparators(s: string, lo: nat)
    requires lo <= |s|
    ensures forall i :: lo <= i < SkipSeparators(s, lo) ==> IsOffsetSeparator(s[i])
    decreases |s| - lo
  {
    if lo < |s| && IsOffsetSeparator(s[lo]) {
      SkippedSeparators(s, lo + 1);
    }
  }

  /**
   * An offset written with any white space before it, a sign, two hour
   * digits, any run of `:` and white space, and two minute digits, the
   * minutes below 60 and the hours below 24, reads as the seconds east those
   * digits spell.
   */
  lemma OffsetOfParts(lead: string, sign: char, a: char, b: char, sep: string, c: char, d: char)
    requires AllSpace(RustSpace, lead, 0, |lead|)
    requires forall i :: 0 <= i < |sep| ==> IsOffsetSeparator(sep[i])
    requires (sign == '+' || sign == '-') && IsDigit(a) && IsDigit(b) && '0' <= c <= '5' && IsDigit(d)
    requires TwoDigits(a, b) < 24
    ensures var seconds := TwoDigits(a, b) * 3600 + TwoDigits(c, d) * 60;
      ParseOffset(lead + [sign, a, b] + sep + [c, d]) == Some(if sign == '-' then -seconds else seconds)
  {
    var z := lead + [sign, a, b] + sep + [c, d];
    var k, j := |lead|, |lead| + 3 + |sep|;
    assert z[k] == sign && z[k + 1] == a && z[k + 2] == b && z[j] == c && z[j + 1] == d;
    assert AllSpace(RustSpace, z, 0, k) by {
      forall i | 0 <= i < k ensures IsSpace(RustSpace, z[i]) {
        assert z[i] == lead[i];
      }
    }
    forall i | k + 3 <= i < j ensures IsOffsetSeparator(z[i]) {
      assert z[i] == sep[i - k - 3];
    }
    OffsetAt(z, k, j);
  }

  /** The offset read from a text whose sign sits at `k` and whose minutes sit at `j`. */
  lemma OffsetAt(z: string, k: nat, j: nat)
    requires k + 3 <= j && j + 2 == |z| && AllSpace(RustSpace, z, 0, k)
    requires (z[k] == '+' || z[k] == '-') && IsDigit(z[k + 1]) && IsDigit(z[k + 2])
    requires forall i :: k + 3 <= i < j ==> IsOffsetSeparator(z[i])
    requires '0' <= z[j] <= '5' && IsDigit(z[j + 1])
    requires TwoDigits(z[k + 1], z[k + 2]) < 24
    ensures var seconds := TwoDigits(z[k + 1], z[k + 2]) * 3600 + TwoDigits(z[j], z[j + 1]) * 60;
      ParseOffset(z) == Some(if z[k] == '-' then -seconds else seconds)
  {
    SkipSpaceTo(z, 0, k);
    SkipSeparatorsTo(z, k + 3, j);
  }

  /**
   * Conversely, every offset that parses is written that way: white space,
   * a sign, the hours, separators and the minutes, and its value is the one
   * those digits spell.
   */
  lemma OffsetShape(z: string)
    requires ParseOffset(z).Some?
    ensures var k := TrimOffset(RustSpace, z);
      && k + 5 <= |z|
      && z == z[..k] + [z[k], z[k + 1], z[k + 2]] + z[k + 3..|z| - 2] + [z[|z| - 2], z[|z| - 1]]
      && AllSpace(RustSpace, z, 0, k)
      && (z[k] == '+' || z[k] == '-') && IsDigit(z[k + 1]) && IsDigit(z[k + 2])
      && (forall i :: k + 3 <= i < |z| - 2 ==> IsOffsetSeparator(z[i]))
      && '0' <= z[|z| - 2] <= '5' && IsDigit(z[|z| - 1])
      && var seconds := TwoDigits(z[k + 1], z[k + 2]) * 3600 + TwoDigits(z[|z| - 2], z[|z| - 1]) * 60;
      && seconds < 86400
      && ParseOffset(z).value == if z[k] == '-' then -seconds else seconds
  {
    var k := TrimOffset(RustSpace, z);
    var j := SkipSeparators(z, k + 3);
    assert z == z[..k] + [z[k], z[k + 1], z[k + 2]] + z[k + 3..j] + [z[j], z[j + 1]];
    SkippedSeparators(z, k + 3);
  }

  /** An offset that parses ends with a digit. */
  lemma OffsetEndsInDigit(z: string)
    requires ParseOffset(z).Some?
    ensures z != [] && IsDigit(z[|z| - 1])
  {
  }

  /** Seconds from 1970-01-01T00:00:00 to the wall-clock time `t`, read in UTC. */
  function LocalSeconds(t: DateTime): int
    requires ValidDate(t.date)
  {
    (DayNumber(t.date) - UnixEpochDay) * 86400 + t.hour * 3600 + t.minute * 60 + t.second
  }

  /**
   * The three readings `parse_ical_datetime` tries on the trimmed text, in
   * order: `...Z` (UTC), then with an explicit offset, then as a floating time
   * in the reference offset.  All three start with a compact date-time, and
   * their suffixes (`Z`, an offset ending in a digit, nothing) exclude each
   * other, so the reading is chosen by the suffix.  This is the intended
   * reading of `Z`; `ReadIcalDateTimeAsWritten` is the code's.  The result is
   * the wall-clock time and the offset it is written in.
   */
  function ReadIcalDateTime(s: string, offset: Offset): (r: Option<(DateTime, int)>)
    ensures r.Some? ==> ValidDateTime(r.value.0) && -86400 < r.value.1 < 86400
  {
    var t := Trim(RustSpace, s);
    if |t| < 15 then None
    else
      match ParseCompact(t[..15])
      case None => None
      case Some(d) => ReadSuffix(d, t[15..], offset)
  }

  /** The offset the text after the compact date-time selects: `Z`, `+HHMM`/`-HHMM` or none. */
  function ReadSuffix(d: DateTime, suffix: string, offset: Offset): (r: Option<(DateTime, int)>)
    ensures r.Some? ==> r.value.0 == d && -86400 < r.value.1 < 86400
    ensures r.Some? <==> suffix == "Z" || ParseOffset(suffix).Some? || suffix == []
  {
    if suffix == "Z" then Some((d, 0))
    else if ParseOffset(suffix).Some? then Some((d, ParseOffset(suffix).value))
    else if suffix == [] then Some((d, offset as int))
    else None
  }

  /** `parse_ical_datetime`: the instant the text denotes, in seconds since the Unix epoch. */
  function ParseIcalDateTime(s: string, offset: Offset): Option<int> {
    match ReadIcalDateTime(s, offset)
    case Some((t, off)) => Some(LocalSeconds(t) - off)
    case None => None
  }

  /**
   * The suffix as the code reads it.  The format `%Y%m%dT%H%M%SZ` matches the
   * `Z` as a literal character and sets no offset, so chrono cannot build a
   * `DateTime` from it and the first reading always fails; `%z` does not take
   * `Z` either.  Only an offset or no suffix at all is read.
   */
  function ReadSuffixAsWritten(d: DateTime, suffix: string, offset: Offset): (r: Option<(DateTime, int)>)
    ensures r.Some? <==> ParseOffset(suffix).Some? || suffix == []
    ensures suffix != "Z" ==> r == ReadSuffix(d, suffix, offset)
  {
    if ParseOffset(suffix).Some? then Some((d, ParseOffset(suffix).value))
    else if suffix == [] then Some((d, offset as int))
    else None
  }

  /** `parse_ical_datetime` as written: the readings of `ReadIcalDateTime` with the suffix read as the code reads it. */
  function ReadIcalDateTimeAsWritten(s: string, offset: Offset): (r: Option<(DateTime, int)>)
  {
    var t := Trim(RustSpace, s);
    if |t| < 15 then None
    else
      match ParseCompact(t[..15])
      case None => None
      case Some(d) => ReadSuffixAsWritten(d, t[15..], offset)
  }

  /** The instant `parse_ical_datetime` as written gives, in seconds since the Unix epoch. */
  function ParseIcalDateTimeAsWritten(s: string, offset: Offset): Option<int> {
    match ReadIcalDateTimeAsWritten(s, offset)
    case Some((t, off)) => Some(LocalSeconds(t) - off)
    case None => None
  }

  /** The wall-clock time of an instant in the reference offset. */
  function ToLocal(instant: int, offset: Offset): (t: DateTime)
    ensures ValidDateTime(t)
  {
    var local := instant + offset;
    AtTimeOfDay(CivilOf(UnixEpochDay + local / 86400), local % 86400)
  }

  /** The time `tod` seconds after midnight on `date`. */
  function AtTimeOfDay(date: Date, tod: int): (t: DateTime)
    requires 0 <= tod < 86400
    ensures t.date == date && 0 <= t.hour < 24 && 0 <= t.minute < 60 && 0 <= t.second < 60
    ensures t.hour * 3600 + t.minute * 60 + t.second == tod
  {
    TimeOfDayJoin(tod);
    DateTime(date, tod / 3600, tod / 60 % 60, tod % 60)
  }

  /** chrono's `%Y`: four digits for years 0 to 9999, otherwise an explicit sign. */
  function YearText(y: int): string {
    var digits := if -10000 < y < 10000 then FixedDigits(if y < 0 then -y else y, 4) else NatToString(if y < 0 then -y else y);
    if 0 <= y < 10000 then digits else (if y < 0 then "-" else "+") + digits
  }

  /** `%Y-%m-%dT%H:%M:%S` of a wall-clock time. */
  function RenderIso(t: DateTime): string
    requires ValidDateTime(t)
  {
    YearText(t.date.year) + "-" + FixedDigits(t.date.month, 2) + "-" + FixedDigits(t.date.day, 2) + "T"
      + FixedDigits(t.hour, 2) + ":" + FixedDigits(t.minute, 2) + ":" + FixedDigits(t.second, 2)
  }

  /** The ISO rendering of an instant in the reference offset. */
  function FormatIso(instant: int, offset: Offset): string {
    RenderIso(ToLocal(instant, offset))
  }

  /** The compact form `YYYYMMDDTHHMMSS` of a wall-clock time; the inverse of `ParseCompact`. */
  function RenderCompact(t: DateTime): string
    requires ValidDateTime(t) && 0 <= t.date.year < 10000
  {
    FixedDigits(t.date.year, 4) + FixedDigits(t.date.month, 2) + FixedDigits(t.date.day, 2) + "T"
      + FixedDigits(t.hour, 2) + FixedDigits(t.minute, 2) + FixedDigits(t.second, 2)
  }

  /** `num_minutes` of a signed number of seconds: whole minutes, truncated toward zero. */
  function WholeMinutes(seconds: int): int {
    if seconds >= 0 then seconds / 60 else -((-seconds) / 60)
  }

  /**
   * Whole minutes truncate toward zero: no more than the seconds in absolute
   * value and less than a minute away, with the sign of the seconds.  Equal
   * instants give zero; an interval reversed by a minute or more gives a
   * negative count.
   */
  lemma WholeMinutesBounds(seconds: int)
    ensures var m := WholeMinutes(seconds);
      && (seconds >= 0 ==> 0 <= m && m * 60 <= seconds < m * 60 + 60)
      && (seconds < 0 ==> m <= 0 && m * 60 - 60 < seconds <= m * 60)
      && (seconds <= -60 ==> m < 0)
  {
  }

  /** The ISO shape `YYYY-MM-DDTHH:MM:SS` written from the compact shape `YYYYMMDDTHHMMSS`. */
  function Separated(c: string): string
    requires |c| == 15
  {
    c[..4] + "-" + c[4..6] + "-" + c[6..8] + "T" + c[9..11] + ":" + c[11..13] + ":" + c[13..]
  }

  // ---------------------------------------------------------------- date-times, properties

  /** Euclidean division is determined by its quotient and remainder. */
  lemma DivModUnique(a: int, b: int, q: int, r: int)
    requires 0 < b && 0 <= r < b && a == q * b + r
    ensures a / b == q && a % b == r
  {
    var q0, r0 := a / b, a % b;
    assert (q0 - q) * b == r - r0;
    if q0 > q {
      MulAtLeast(q0 - q, b);
    } else if q > q0 {
      MulAtLeast(q - q0, b);
    }
  }

  lemma MulAtLeast(x: int, b: int)
    requires x >= 1 && b > 0
    ensures x * b >= b
  {
    assert x * b == (x - 1) * b + b;
  }

  lemma TimeOfDaySplit(h: int, m: int, sec: int)
    requires 0 <= h < 24 && 0 <= m < 60 && 0 <= sec < 60
    ensures var tod := h * 3600 + m * 60 + sec;
      0 <= tod < 86400 && tod / 3600 == h && tod / 60 % 60 == m && tod % 60 == sec
  {
    var tod := h * 3600 + m * 60 + sec;
    DivModUnique(tod, 3600, h, m * 60 + sec);
    DivModUnique(tod, 60, h * 60 + m, sec);
    DivModUnique(h * 60 + m, 60, h, m);
  }

  /** Reading a wall-clock time in an offset and showing the instant in that offset gives it back. */
  lemma LocalRoundTrip(t: DateTime, offset: Offset)
    requires ValidDateTime(t)
    ensures ToLocal(LocalSeconds(t) - offset, offset) == t
  {
    var n := DayNumber(t.date) - UnixEpochDay;
    var tod := t.hour * 3600 + t.minute * 60 + t.second;
    TimeOfDaySplit(t.hour, t.minute, t.second);
    DivModUnique(LocalSeconds(t), 86400, n, tod);
    CivilOfDayNumber(t.date);
  }

  lemma TimeOfDayJoin(tod: int)
    requires 0 <= tod < 86400
    ensures tod / 3600 * 3600 + tod / 60 % 60 * 60 + tod % 60 == tod
  {
    var m1 := tod / 60;
    var h1 := m1 / 60;
    assert tod == m1 * 60 + tod % 60;
    assert m1 == h1 * 60 + m1 % 60;
    assert tod == h1 * 3600 + m1 % 60 * 60 + tod % 60;
    DivModUnique(tod, 3600, h1, m1 % 60 * 60 + tod % 60);
  }

  /** Conversely, the wall-clock time of an instant in an offset, read in UTC, is the instant shifted by the offset. */
  lemma ToLocalLocalSeconds(instant: int, offset: Offset)
    ensures LocalSeconds(ToLocal(instant, offset)) == instant + offset
  {
  }

  /** Two digits written and read back. */
  lemma TwoDigitsRoundTrip(n: nat)
    requires n < 100
    ensures FixedDigits(n, 2) == [DigitChar(n / 10), DigitChar(n % 10)]
    ensures TwoDigits(DigitChar(n / 10), DigitChar(n % 10)) == n
  {
    assert FixedDigits(n / 10, 1) == FixedDigits(n / 100, 0) + [DigitChar(n / 10 % 10)];
  }

  /** Four digits written and read back. */
  lemma FourDigitsRoundTrip(n: nat)
    requires n < 10000
    ensures FixedDigits(n, 4) == FixedDigits(n / 100, 2) + FixedDigits(n % 100, 2)
    ensures FixedDigits(n, 4) == [DigitChar(n / 1000), DigitChar(n / 100 % 10), DigitChar(n % 100 / 10), DigitChar(n % 10)]
    ensures FourDigits(DigitChar(n / 1000), DigitChar(n / 100 % 10), DigitChar(n % 100 / 10), DigitChar(n % 10)) == n
  {
    var hi, lo := n / 100, n % 100;
    DivModUnique(n, 10, hi * 10 + lo / 10, lo % 10);
    DivModUnique(n / 10, 10, hi, lo / 10);
    DivModUnique(hi, 10, n / 1000, hi % 10);
    assert n / 10 / 10 == hi;
    assert hi / 10 == n / 1000 by { DivModUnique(n, 1000, hi / 10, hi % 10 * 100 + lo); }
    calc {
      FixedDigits(n, 4);
      FixedDigits(n / 10, 3) + [DigitChar(n % 10)];
      FixedDigits(n / 10 / 10, 2) + [DigitChar(n / 10 % 10)] + [DigitChar(n % 10)];
      FixedDigits(hi, 2) + [DigitChar(lo / 10), DigitChar(lo % 10)];
    }
    TwoDigitsRoundTrip(hi);
    TwoDigitsRoundTrip(lo);
  }

  /** Reading two digit characters and writing the number gives the characters back. */
  lemma TwoDigitsRendered(a: char, b: char)
    requires IsDigit(a) && IsDigit(b)
    ensures FixedDigits(TwoDigits(a, b), 2) == [a, b]
  {
    var n := TwoDigits(a, b);
    DivModUnique(n, 10, DigitValue(a), DigitValue(b));
    TwoDigitsRoundTrip(n);
  }

  /** The fields of a compact date-time sit at fixed places. */
  lemma CompactPieces(t: DateTime)
    requires ValidDateTime(t) && 0 <= t.date.year < 10000
    ensures var c := RenderCompact(t);
      && c[..4] == FixedDigits(t.date.year, 4) && c[4..6] == FixedDigits(t.date.month, 2)
      && c[6..8] == FixedDigits(t.date.day, 2) && c[8] == 'T' && c[9..11] == FixedDigits(t.hour, 2)
      && c[11..13] == FixedDigits(t.minute, 2) && c[13..] == FixedDigits(t.second, 2)
  {
  }

  /** Parsing the compact rendering of a wall-clock time gives the time back. */
  lemma CompactRoundTrip(t: DateTime)
    requires ValidDateTime(t) && 0 <= t.date.year < 10000
    ensures ParseCompact(RenderCompact(t)) == Some(t)
  {
    var c := RenderCompact(t);
    var y := t.date.year;
    FourDigitsRoundTrip(y);
    TwoDigitsRoundTrip(t.date.month);
    TwoDigitsRoundTrip(t.date.day);
    TwoDigitsRoundTrip(t.hour);
    TwoDigitsRoundTrip(t.minute);
    TwoDigitsRoundTrip(t.second);
    assert c == [DigitChar(y / 1000), DigitChar(y / 100 % 10), DigitChar(y % 100 / 10), DigitChar(y % 10)]
      + [DigitChar(t.date.month / 10), DigitChar(t.date.month % 10)]
      + [DigitChar(t.date.day / 10), DigitChar(t.date.day % 10)] + "T"
      + [DigitChar(t.hour / 10), DigitChar(t.hour % 10)]
      + [DigitChar(t.minute / 10), DigitChar(t.minute % 10)]
      + [DigitChar(t.second / 10), DigitChar(t.second % 10)];
  }

  /** A text of the compact shape is its fields put back together. */
  lemma CompactSplit(c: string)
    requires |c| == 15 && c[8] == 'T'
    ensures c == c[..4] + c[4..6] + c[6..8] + "T" + c[9..11] + c[11..13] + c[13..]
    ensures c[..4] == [c[0], c[1]] + [c[2], c[3]] && c[4..6] == [c[4], c[5]] && c[6..8] == [c[6], c[7]]
    ensures c[9..11] == [c[9], c[10]] && c[11..13] == [c[11], c[12]] && c[13..] == [c[13], c[14]]
  {
  }

  /** Conversely, a compact text that parses is the rendering of what it parses to; its year has four digits. */
  lemma CompactRendered(c: string)
    requires ParseCompact(c).Some?
    ensures 0 <= ParseCompact(c).value.date.year < 10000
    ensures RenderCompact(ParseCompact(c).value) == c
  {
    var t := ParseCompact(c).value;
    CompactSplit(c);
    var y := t.date.year;
    assert FixedDigits(y, 4) == c[..4] by {
      TwoDigitsRendered(c[0], c[1]);
      TwoDigitsRendered(c[2], c[3]);
      DivModUnique(y, 100, TwoDigits(c[0], c[1]), TwoDigits(c[2], c[3]));
      FourDigitsRoundTrip(y);
    }
    TwoDigitsRendered(c[4], c[5]);
    TwoDigitsRendered(c[6], c[7]);
    TwoDigitsRendered(c[9], c[10]);
    TwoDigitsRendered(c[11], c[12]);
    TwoDigitsRendered(c[13], c[14]);
  }

  /** With a four-digit year, the ISO rendering is the compact rendering with separators. */
  lemma IsoOfCompact(t: DateTime)
    requires ValidDateTime(t) && 0 <= t.date.year < 10000
    ensures RenderIso(t) == Separated(RenderCompact(t))
  {
    CompactPieces(t);
  }

  /** A compact date-time neither starts nor ends with white space. */
  lemma CompactTrimmed(c: string, suffix: string)
    requires ParseCompact(c).Some?
    requires suffix == [] || !IsSpace(RustSpace, suffix[|suffix| - 1])
    ensures Trim(RustSpace, c + suffix) == c + suffix
  {
    assert IsDigit(c[0]) && IsDigit(c[14]);
    TrimTrimmed(RustSpace, c + suffix);
  }

  /** A compact date-time followed by a suffix, once trimmed, is split back into the two. */
  lemma CompactSuffix(c: string, suffix: string, offset: Offset)
    requires ParseCompact(c).Some?
    requires suffix == [] || !IsSpace(RustSpace, suffix[|suffix| - 1])
    ensures var t := Trim(RustSpace, c + suffix); |t| >= 15 && t[..15] == c && t[15..] == suffix
  {
    CompactTrimmed(c, suffix);
    assert (c + suffix)[..15] == c && (c + suffix)[15..] == suffix;
  }

  /** A compact date-time followed by a suffix is read as that date-time with the suffix's offset. */
  lemma CompactThenSuffix(c: string, suffix: string, offset: Offset)
    requires ParseCompact(c).Some?
    requires suffix == [] || !IsSpace(RustSpace, suffix[|suffix| - 1])
    ensures ReadIcalDateTime(c + suffix, offset) == ReadSuffix(ParseCompact(c).value, suffix, offset)
  {
    CompactSuffix(c, suffix, offset);
    var t := Trim(RustSpace, c + suffix);
    assert ParseCompact(t[..15]) == ParseCompact(c);
  }

  /** A floating date-time is read as a wall-clock time in the reference offset. */
  lemma FloatingForm(c: string, offset: Offset)
    requires ParseCompact(c).Some?
    ensures ReadIcalDateTime(c, offset) == Some((ParseCompact(c).value, offset as int))
  {
    CompactThenSuffix(c, "", offset);
    assert c + "" == c;
  }

  /** A date-time with the `Z` suffix is read in UTC, whatever the reference offset. */
  lemma UtcForm(c: string, offset: Offset)
    requires ParseCompact(c).Some?
    ensures ReadIcalDateTime(c + "Z", offset) == Some((ParseCompact(c).value, 0))
  {
    CompactThenSuffix(c, "Z", offset);
  }

  /** A date-time with an explicit `+HHMM`/`-HHMM` suffix is read in that offset. */
  lemma OffsetForm(c: string, z: string, offset: Offset)
    requires ParseCompact(c).Some? && ParseOffset(z).Some?
    ensures ReadIcalDateTime(c + z, offset) == Some((ParseCompact(c).value, ParseOffset(z).value))
  {
    OffsetEndsInDigit(z);
    CompactThenSuffix(c, z, offset);
  }

  /** The ISO rendering of a parsed compact date-time is the text with separators. */
  lemma IsoOfParsed(c: string)
    requires ParseCompact(c).Some?
    ensures RenderIso(ParseCompact(c).value) == Separated(c)
  {
    CompactRendered(c);
    IsoOfCompact(ParseCompact(c).value);
  }

  /**
   * A wall-clock time read in an offset, shown again in that offset, is
   * rendered with the fields it was written with.
   */
  lemma ShownInOwnOffset(t: DateTime, offset: Offset)
    requires ValidDateTime(t)
    ensures FormatIso(LocalSeconds(t) - offset, offset) == RenderIso(t)
  {
    LocalRoundTrip(t, offset);
  }

  /** `YYYY-MM-DDTHH:MM:SS`: nineteen characters, digits but for the separators. */
  predicate IsoShape(r: string) {
    && |r| == 19 && r[4] == '-' && r[7] == '-' && r[10] == 'T' && r[13] == ':' && r[16] == ':'
    && forall i :: 0 <= i < 19 && i != 4 && i != 7 && i != 10 && i != 13 && i != 16 ==> IsDigit(r[i])
  }

  /** A wall-clock time with a four-digit year is rendered in the ISO shape. */
  lemma RenderIsoShape(t: DateTime)
    requires ValidDateTime(t) && 0 <= t.date.year < 10000
    ensures IsoShape(RenderIso(t))
  {
    var r := RenderIso(t);
    var y, mo, d := FixedDigits(t.date.year, 4), FixedDigits(t.date.month, 2), FixedDigits(t.date.day, 2);
    var h, mi, se := FixedDigits(t.hour, 2), FixedDigits(t.minute, 2), FixedDigits(t.second, 2);
    assert r == y + "-" + mo + "-" + d + "T" + h + ":" + mi + ":" + se;
    forall i | 0 <= i < 19 && i != 4 && i != 7 && i != 10 && i != 13 && i != 16
      ensures IsDigit(r[i])
    {
      if i < 4 { assert r[i] == y[i]; }
      else if i < 7 { assert r[i] == mo[i - 5]; }
      else if i < 10 { assert r[i] == d[i - 8]; }
      else if i < 13 { assert r[i] == h[i - 11]; }
      else if i < 16 { assert r[i] == mi[i - 14]; }
      else { assert r[i] == se[i - 17]; }
    }
  }

  /**
   * Only those three forms are read: a text that parses is, once trimmed, a
   * compact date-time alone, with `Z`, or with an offset that parses.
   */
  lemma ParseIcalDateTimeForms(s: string, offset: Offset)
    requires ReadIcalDateTime(s, offset).Some?
    ensures var t := Trim(RustSpace, s);
      && |t| >= 15 && ParseCompact(t[..15]).Some?
      && (t == t[..15] || t == t[..15] + "Z" || ParseOffset(t[15..]).Some?)
  {
    var t := Trim(RustSpace, s);
    var suffix := t[15..];
    if suffix == "Z" {
      assert t == t[..15] + suffix;
    } else if ParseOffset(suffix).None? {
      assert suffix == [];
      assert t == t[..15];
    }
  }


  /**
   * The code as written reads every text the way `ReadIcalDateTime` does,
   * except one whose suffix after the compact date-time is `Z`: that one it
   * does not read at all.
   */
  lemma AsWrittenReading(s: string, offset: Offset)
    ensures var t := Trim(RustSpace, s);
      ReadIcalDateTimeAsWritten(s, offset) == if |t| >= 15 && t[15..] == "Z" then None else ReadIcalDateTime(s, offset)
  {
  }

  /** A compact time with `Z` is read in UTC by the intended reading and not read at all as written. */
  lemma ZuluAsWritten(c: string, offset: Offset)
    requires ParseCompact(c).Some?
    ensures ReadIcalDateTimeAsWritten(c + "Z", offset).None?
    ensures ReadIcalDateTime(c + "Z", offset) == Some((ParseCompact(c).value, 0))
  {
    CompactSuffix(c, "Z", offset);
    UtcForm(c, offset);
  }

  // ---------------------------------------------------------------- normalised events

  /**
   * An event with its course type, subject and local ISO times.  `duration`
   * is the signed distance of the two instants in seconds (chrono's
   * `Duration`); the program stores only the hours `DurationHours` computes
   * from it.
   */
  datatype NormalizedEvent = NormalizedEvent(
    raw: RawEvent,
    subject: string,
    courseType: string,
    startIso: string,
    endIso: string,
    duration: int)

  /** `duration_hours`: the whole minutes of the event's duration, as hours. */
  function DurationHours(ev: NormalizedEvent): real {
    WholeMinutes(ev.duration) as real / 60.0
  }

  /**
   * The hours count whole minutes of the duration, truncated toward zero,
   * with no clamping: a zero duration gives zero hours, a forward one at
   * most its length and less than a minute below it, and one reversed by a
   * minute or more a negative number of hours.
   */
  lemma DurationHoursSpec(ev: NormalizedEvent)
    ensures DurationHours(ev) * 60.0 == WholeMinutes(ev.duration) as real
    ensures ev.duration == 0 ==> DurationHours(ev) == 0.0
    ensures ev.duration >= 0 ==>
      0.0 <= DurationHours(ev) && DurationHours(ev) * 3600.0 <= ev.duration as real < DurationHours(ev) * 3600.0 + 60.0
    ensures ev.duration <= -60 ==> DurationHours(ev) < 0.0
  {
    var m := WholeMinutes(ev.duration);
    WholeMinutesBounds(ev.duration);
    assert DurationHours(ev) * 3600.0 == (m * 60) as real;
  }

  /** The course type (upper-cased) and the subject (trimmed) of a summary, by the ordered rules. */
  function TypeAndSubject(rawSummary: string): (string, string) {
    var split := Classify(Tokens, Trim(RustSpace, rawSummary));
    (Upper(split.0), Trim(RustSpace, split.1))
  }

  /** The per-event body of `normalize`, given the instants its two times were read as. */
  function NormalizedOf(raw: RawEvent, offset: Offset, start: Option<int>, end: Option<int>): NormalizedEvent {
    var kind := TypeAndSubject(raw.summary);
    if start.Some? && end.Some? then
      NormalizedEvent(raw, kind.1, kind.0, FormatIso(start.value, offset), FormatIso(end.value, offset), end.value - start.value)
    else
      NormalizedEvent(raw, kind.1, kind.0, raw.start, raw.end, 0)
  }

  /** The per-event body of `normalize`, in the reference offset, with `Z` read as UTC. */
  function NormalizeEvent(raw: RawEvent, offset: Offset): NormalizedEvent {
    NormalizedOf(raw, offset, ParseIcalDateTime(raw.start, offset), ParseIcalDateTime(raw.end, offset))
  }

  /** The per-event body of `normalize` as written, where a time with `Z` is not read. */
  function NormalizeEventAsWritten(raw: RawEvent, offset: Offset): NormalizedEvent {
    NormalizedOf(raw, offset, ParseIcalDateTimeAsWritten(raw.start, offset), ParseIcalDateTimeAsWritten(raw.end, offset))
  }

  /**
   * `normalize` in the corrected reading, where a time with `Z` is UTC: one
   * normalised event per raw event, in order, each carrying its raw event.
   */
  function Normalize(events: seq<RawEvent>, offset: Offset): (r: seq<NormalizedEvent>)
    ensures |r| == |events|
    ensures forall i :: 0 <= i < |r| ==> r[i].raw == events[i]
    ensures forall i :: 0 <= i < |r| ==> r[i] == NormalizeEvent(events[i], offset)
  {
    seq(|events|, i requires 0 <= i < |events| => NormalizeEvent(events[i], offset))
  }

  /** `normalize` as written: one event per raw event, in order, each read as the code reads it. */
  function NormalizeAsWritten(events: seq<RawEvent>, offset: Offset): (r: seq<NormalizedEvent>)
    ensures |r| == |events|
    ensures forall i :: 0 <= i < |r| ==> r[i].raw == events[i]
    ensures forall i :: 0 <= i < |r| ==> r[i] == NormalizeEventAsWritten(events[i], offset)
  {
    seq(|events|, i requires 0 <= i < |events| => NormalizeEventAsWritten(events[i], offset))
  }

  /** The text, once trimmed, is a compact date-time followed by `Z`. */
  predicate EndsInZulu(s: string) {
    var t := Trim(RustSpace, s);
    |t| >= 15 && t[15..] == "Z"
  }

  /** Off the `Z` suffix, the code as written gives the same instant as the corrected reading. */
  lemma ParseReadingsAgree(s: string, offset: Offset)
    requires !EndsInZulu(s)
    ensures ParseIcalDateTimeAsWritten(s, offset) == ParseIcalDateTime(s, offset)
  {
    AsWrittenReading(s, offset);
  }

  /**
   * The two readings of `normalize` give every event the same type and
   * subject, and the same event outright when neither time ends in `Z`.
   */
  lemma NormalizeReadingsAgree(events: seq<RawEvent>, offset: Offset, i: int)
    requires 0 <= i < |events|
    ensures NormalizeAsWritten(events, offset)[i].courseType == Normalize(events, offset)[i].courseType
    ensures NormalizeAsWritten(events, offset)[i].subject == Normalize(events, offset)[i].subject
    ensures !EndsInZulu(events[i].start) && !EndsInZulu(events[i].end) ==>
      NormalizeAsWritten(events, offset)[i] == Normalize(events, offset)[i]
  {
    var raw := events[i];
    assert NormalizeAsWritten(events, offset)[i] == NormalizeEventAsWritten(raw, offset);
    assert Normalize(events, offset)[i] == NormalizeEvent(raw, offset);
    if !EndsInZulu(raw.start) && !EndsInZulu(raw.end) {
      ParseReadingsAgree(raw.start, offset);
      ParseReadingsAgree(raw.end, offset);
    }
  }

  /** On a trimmed summary, the type and subject are the classification's, upper-cased and trimmed. */
  lemma TypeAndSubjectOf(summary: string, courseType: string, subject: string)
    requires IsTrimmed(RustSpace, summary) && Classify(Tokens, summary) == (courseType, subject)
    ensures TypeAndSubject(summary) == (Upper(courseType), Trim(RustSpace, subject))
  {
    TrimTrimmed(RustSpace, summary);
  }

  /** No rule matches the summary. */
  predicate Unclassified(summary: string) {
    && TypeThenSubject(Tokens, summary).None?
    && SubjectThen(Tokens, DashTail, summary).None?
    && SubjectThen(Tokens, SpaceTail, summary).None?
  }

  /**
   * The type is one of the course-type alternatives, upper-cased, or `AUTRE`
   * exactly when no rule matches, and then the subject is the trimmed summary;
   * the subject is always trimmed, and not blank when the summary is not.
   */
  lemma TypeAndSubjectSpec(rawSummary: string)
    ensures var (courseType, subject) := TypeAndSubject(rawSummary);
      var summary := Trim(RustSpace, rawSummary);
      && (IsAlternative(Tokens, courseType) || courseType == "AUTRE")
      && courseType != []
      && (courseType == "AUTRE" <==> Unclassified(summary))
      && (courseType == "AUTRE" ==> subject == summary)
      && IsTrimmed(RustSpace, subject)
      && (summary != [] ==> subject != [])
  {
    var summary := Trim(RustSpace, rawSummary);
    TokensValid();
    ClassifyType(Tokens, summary);
    TrimTrimmed(RustSpace, summary);
    if summary != [] {
      ClassifySubject(Tokens, summary);
    }
  }

  /** Each normalised event carries its raw event, and its type and subject come from the summary alone. */
  lemma NormalizeEventKind(raw: RawEvent, offset: Offset)
    ensures NormalizeEvent(raw, offset).raw == raw
    ensures (NormalizeEvent(raw, offset).courseType, NormalizeEvent(raw, offset).subject) == TypeAndSubject(raw.summary)
  {
  }

  /** When both times parse, the ISO start is the start instant shown in the reference offset. */
  lemma NormalizeStartIso(raw: RawEvent, offset: Offset, s: int, e: int)
    requires ParseIcalDateTime(raw.start, offset) == Some(s) && ParseIcalDateTime(raw.end, offset) == Some(e)
    ensures NormalizeEvent(raw, offset).startIso == FormatIso(s, offset)
  {
  }

  /** When both times parse, the ISO end is the end instant shown in the reference offset. */
  lemma NormalizeEndIso(raw: RawEvent, offset: Offset, s: int, e: int)
    requires ParseIcalDateTime(raw.start, offset) == Some(s) && ParseIcalDateTime(raw.end, offset) == Some(e)
    ensures NormalizeEvent(raw, offset).endIso == FormatIso(e, offset)
  {
  }

  /**
   * When both times parse, the duration is the distance of the two instants
   * in whole minutes, truncated toward zero and not clamped.
   */
  lemma NormalizeDuration(raw: RawEvent, offset: Offset, s: int, e: int)
    requires ParseIcalDateTime(raw.start, offset) == Some(s) && ParseIcalDateTime(raw.end, offset) == Some(e)
    ensures NormalizeEvent(raw, offset).duration == e - s
  {
  }

  /**
   * As written, an event whose start or end carries `Z` keeps its raw times
   * verbatim and lasts zero hours; its type and subject are unaffected.
   */
  lemma NormalizeZuluAsWritten(raw: RawEvent, offset: Offset, c: string)
    requires ParseCompact(c).Some? && raw.start == c + "Z"
    ensures var ev := NormalizeEventAsWritten(raw, offset);
      && ev.raw == raw && (ev.courseType, ev.subject) == TypeAndSubject(raw.summary)
      && ev.startIso == raw.start && ev.endIso == raw.end && ev.duration == 0
  {
    ZuluAsWritten(c, offset);
  }

  /** When either time does not parse, the raw times are kept verbatim and the duration is zero. */
  lemma NormalizeEventUnparsed(raw: RawEvent, offset: Offset)
    requires ParseIcalDateTime(raw.start, offset).None? || ParseIcalDateTime(raw.end, offset).None?
    ensures var ev := NormalizeEvent(raw, offset);
      ev.startIso == raw.start && ev.endIso == raw.end && ev.duration == 0
  {
  }
}
