/**
 * The derivation pipeline of the frontend (`useDerivedEvents.ts`): every
 * stored event is enriched with its calendar's attributes and the user's
 * normalisation rules, included events that repeat an earlier one are marked
 * as duplicates, and the views read filtered selections of the result.
 *
 * Instants are milliseconds since the Unix epoch, read in a host time zone
 * that is a fixed offset `tz` in milliseconds.
 */
module DerivedEvents {
  import opened Base
  import opened Lists
  import opened Text
  import JsTime
  import opened FrontendTypes
  import opened AdvancedFilters

  // ---------------------------------------------------------------- normalisation rules

  /**
   * `normalizeValue`: the trimmed value, or nothing when that key is hidden,
   * or the trimmed mapping when the key is mapped to a non-empty text.
   */
  function NormalizeValue(m: map<string, string>, hd: map<string, bool>, value: string): (r: string)
    ensures IsTrimmed(JsSpace, r)
    ensures var k := Trim(JsSpace, value);
      && (IsHidden(hd, k) ==> r == [])
      && (!IsHidden(hd, k) && k in m && m[k] != [] ==> r == Trim(JsSpace, m[k]))
      && (!IsHidden(hd, k) && !(k in m && m[k] != []) ==> r == k)
  {
    var k := Trim(JsSpace, value);
    if IsHidden(hd, k) then []
    else if k in m && m[k] != [] then Trim(JsSpace, m[k])
    else k
  }

  /** White space around a value never changes what it normalises to. */
  lemma NormalizeValueTrim(m: map<string, string>, hd: map<string, bool>, value: string)
    ensures NormalizeValue(m, hd, Trim(JsSpace, value)) == NormalizeValue(m, hd, value)
  {
    TrimTrimmed(JsSpace, Trim(JsSpace, value));
  }

  /** A trimmed value that no rule mentions normalises to itself. */
  lemma NormalizeValueFree(m: map<string, string>, hd: map<string, bool>, value: string)
    requires IsTrimmed(JsSpace, value) && value !in m && value !in hd
    ensures NormalizeValue(m, hd, value) == value
  {
    TrimTrimmed(JsSpace, value);
  }

  /** `values.map(v => normalizeValue(map, hideMap, v))`. */
  function NormalizeAll(values: seq<string>, m: map<string, string>, hd: map<string, bool>): (r: seq<string>)
    ensures |r| == |values| && forall i :: 0 <= i < |r| ==> r[i] == NormalizeValue(m, hd, values[i])
  {
    seq(|values|, i requires 0 <= i < |values| => NormalizeValue(m, hd, values[i]))
  }

  /**
   * `normalizeList`: the non-empty normalised values, each once, in the order
   * of their first occurrence.
   */
  function NormalizeList(values: seq<string>, m: map<string, string>, hd: map<string, bool>): (r: seq<string>)
    ensures NoDup(r)
    ensures forall x :: x in r <==> x != [] && x in NormalizeAll(values, m, hd)
    ensures FirstOccurrenceOrder(r, Filter(NormalizeAll(values, m, hd), NonEmpty))
  {
    var all := Filter(NormalizeAll(values, m, hd), NonEmpty);
    DedupOrder(all);
    Dedup(all)
  }

  /** Every element of a normalised list is trimmed and non-empty. */
  lemma NormalizeListClean(values: seq<string>, m: map<string, string>, hd: map<string, bool>, x: string)
    requires x in NormalizeList(values, m, hd)
    ensures x != [] && IsTrimmed(JsSpace, x)
  {
    var all := NormalizeAll(values, m, hd);
    var i :| 0 <= i < |all| && all[i] == x;
  }

  /**
   * A list of distinct, non-empty, trimmed values that no rule mentions
   * normalises to itself: the rules are the only thing that changes it.
   */
  lemma NormalizeListFree(values: seq<string>, m: map<string, string>, hd: map<string, bool>)
    requires NoDup(values)
    requires forall i :: 0 <= i < |values| ==>
      values[i] != [] && IsTrimmed(JsSpace, values[i]) && values[i] !in m && values[i] !in hd
    ensures NormalizeList(values, m, hd) == values
  {
    var all := NormalizeAll(values, m, hd);
    forall i | 0 <= i < |values| ensures all[i] == values[i] {
      NormalizeValueFree(m, hd, values[i]);
    }
    assert all == values;
    FilterAll(values, NonEmpty);
    DedupNoDup(values);
  }

  // ---------------------------------------------------------------- durations

  /** The length in hours of a parsed interval, when the end is after the start; 0 otherwise. */
  function ComputedDuration(startTs: Option<int>, endTs: Option<int>): (r: real)
    ensures r >= 0.0
    ensures r > 0.0 <==> startTs.Some? && endTs.Some? && endTs.value > startTs.value
  {
    if startTs.Some? && endTs.Some? && endTs.value > startTs.value then
      (endTs.value - startTs.value) as real / 3600000.0
    else 0.0
  }

  /** The hours an event counts for: a positive stored duration, else the computed one. */
  function Duration(stored: real, startTs: Option<int>, endTs: Option<int>): (r: real)
    ensures r >= 0.0
    ensures stored > 0.0 ==> r == stored
    ensures stored <= 0.0 ==> r == ComputedDuration(startTs, endTs)
  {
    if stored > 0.0 then stored else ComputedDuration(startTs, endTs)
  }

  /** An interval of a whole number of hours counts for exactly that many hours. */
  lemma ComputedWholeHours(start: int, hours: nat)
    requires hours > 0
    ensures ComputedDuration(Some(start), Some(start + hours * 3600000)) == hours as real
  {
  }

  // ---------------------------------------------------------------- enrichment

  /** The stored teachers, or the placeholder `—` when there are none. */
  function TeacherSource(teachers: seq<string>): (r: seq<string>)
    ensures r != []
  {
    if teachers == [] then ["—"] else teachers
  }

  /** One event of one calendar as the pipeline enriches it, before duplicate marking. */
  function Enrich(cal: Calendar, ev: Event, rules: Rules, tz: int): (r: Enriched)
    ensures r.startTs == JsTime.ParseIcsDateTime(ev.startIso, tz) && r.endTs == JsTime.ParseIcsDateTime(ev.endIso, tz)
    ensures r.durationHours >= 0.0
    ensures r.durationHours == Duration(ev.durationHours, r.startTs, r.endTs)
    ensures r.subject == NormalizeValue(rules.subjects, rules.hidden.subjects, ev.subject)
    ensures r.teachers == NormalizeList(TeacherSource(ev.teachers), rules.teachers, rules.hidden.teachers)
    ensures r.promos == NormalizeList(ev.promos, rules.promos, rules.hidden.promos)
    ensures r.extractedTeacher == Join(r.teachers, ", ") && r.promo == Join(r.promos, ", ")
    ensures r.color == cal.color && r.statsIncluded == cal.includeInStats && r.calendarName == cal.name
    ensures r.calendarId == cal.id && r.isVisible == cal.visible && !r.isDuplicate
    ensures r.raw == ev.raw && r.courseType == ev.courseType && r.startIso == ev.startIso && r.endIso == ev.endIso
  {
    var startTs := JsTime.ParseIcsDateTime(ev.startIso, tz);
    var endTs := JsTime.ParseIcsDateTime(ev.endIso, tz);
    var teachers := NormalizeList(TeacherSource(ev.teachers), rules.teachers, rules.hidden.teachers);
    var promos := NormalizeList(ev.promos, rules.promos, rules.hidden.promos);
    Enriched(
      ev.raw, NormalizeValue(rules.subjects, rules.hidden.subjects, ev.subject), ev.courseType,
      ev.startIso, ev.endIso, Duration(ev.durationHours, startTs, endTs),
      teachers, promos, Join(teachers, ", "), Join(promos, ", "),
      startTs, endTs, cal.color, cal.includeInStats, cal.name, cal.id, cal.visible, false)
  }

  /**
   * An event with no stored teacher shows the placeholder `—`, unless a rule
   * hides or renames the placeholder itself.
   */
  lemma PlaceholderTeacher(cal: Calendar, ev: Event, rules: Rules, tz: int)
    requires ev.teachers == []
    requires "—" !in rules.teachers && "—" !in rules.hidden.teachers
    ensures Enrich(cal, ev, rules, tz).teachers == ["—"]
    ensures Enrich(cal, ev, rules, tz).extractedTeacher == "—"
  {
    assert IsTrimmed(JsSpace, "—");
    NormalizeListFree(["—"], rules.teachers, rules.hidden.teachers);
  }

  /** The events of one calendar, enriched, in their stored order. */
  function EnrichCalendar(cal: Calendar, rules: Rules, tz: int): (r: seq<Enriched>)
    ensures |r| == |cal.events|
    ensures forall i :: 0 <= i < |r| ==> r[i] == Enrich(cal, cal.events[i], rules, tz)
  {
    seq(|cal.events|, i requires 0 <= i < |cal.events| => Enrich(cal, cal.events[i], rules, tz))
  }

  /** `calendars.flatMap(...)`: every event of every calendar, calendar after calendar. */
  function RawEvents(calendars: seq<Calendar>, rules: Rules, tz: int): (r: seq<Enriched>)
    ensures calendars != [] ==> r == EnrichCalendar(calendars[0], rules, tz) + RawEvents(calendars[1..], rules, tz)
  {
    if calendars == [] then []
    else EnrichCalendar(calendars[0], rules, tz) + RawEvents(calendars[1..], rules, tz)
  }

  /** The number of stored events over all calendars. */
  function EventCount(calendars: seq<Calendar>): nat {
    if calendars == [] then 0 else |calendars[0].events| + EventCount(calendars[1..])
  }

  /** Enrichment neither drops nor adds events. */
  lemma {:induction false} RawEventsCount(calendars: seq<Calendar>, rules: Rules, tz: int)
    ensures |RawEvents(calendars, rules, tz)| == EventCount(calendars)
  {
    if calendars != [] {
      RawEventsCount(calendars[1..], rules, tz);
    }
  }

  // ---------------------------------------------------------------- duplicate marking

  /** The key two events must share to count as the same session. */
  function DupKey(e: Enriched): string {
    e.startIso + "|" + e.endIso + "|" + e.subject + "|" + e.courseType + "|" + e.extractedTeacher
  }

  /** An earlier included event of `s` has the key of `s[i]`. */
  predicate SeenBefore(s: seq<Enriched>, i: int)
    requires 0 <= i < |s|
  {
    exists j :: 0 <= j < i && s[j].statsIncluded && DupKey(s[j]) == DupKey(s[i])
  }

  /** `s[i]` with its duplicate flag: an included event whose key an earlier included event has. */
  function MarkAt(s: seq<Enriched>, i: int): Enriched
    requires 0 <= i < |s|
  {
    s[i].(isDuplicate := s[i].statsIncluded && SeenBefore(s, i))
  }

  /** The events of `s`, each with its duplicate flag. */
  function Marked(s: seq<Enriched>): (r: seq<Enriched>)
    ensures |r| == |s| && forall i :: 0 <= i < |s| ==> r[i] == MarkAt(s, i)
  {
    seq(|s|, i requires 0 <= i < |s| => MarkAt(s, i))
  }

  /** The keys of the included events of `s`. */
  function IncludedKeys(s: seq<Enriched>): set<string> {
    if s == [] then {}
    else IncludedKeys(s[..|s| - 1]) + (if s[|s| - 1].statsIncluded then {DupKey(s[|s| - 1])} else {})
  }

  /** A key is among the included keys exactly when an included event has it. */
  lemma {:induction false} IncludedKeysMember(s: seq<Enriched>, k: string)
    ensures k in IncludedKeys(s) <==> exists j :: 0 <= j < |s| && s[j].statsIncluded && DupKey(s[j]) == k
  {
    if s != [] {
      var init := s[..|s| - 1];
      IncludedKeysMember(init, k);
      if k in IncludedKeys(init) {
        var j :| 0 <= j < |init| && init[j].statsIncluded && DupKey(init[j]) == k;
        assert s[j] == init[j];
      }
      if exists j :: 0 <= j < |s| && s[j].statsIncluded && DupKey(s[j]) == k {
        var j :| 0 <= j < |s| && s[j].statsIncluded && DupKey(s[j]) == k;
        if j < |s| - 1 {
          assert init[j] == s[j];
        }
      }
    }
  }

  /**
   * The duplicate-marking pass: a set of the keys seen so far among included
   * events; an included event whose key is already there is a duplicate.
   */
  method MarkDuplicates(raw: seq<Enriched>) returns (r: seq<Enriched>)
    ensures r == Marked(raw)
  {
    var seen: set<string> := {};
    r := [];
    var i := 0;
    while i < |raw|
      invariant 0 <= i <= |raw| && |r| == i
      invariant seen == IncludedKeys(raw[..i])
      invariant forall k :: 0 <= k < i ==> r[k] == MarkAt(raw, k)
    {
      var ev := raw[i];
      assert raw[..i + 1][..i] == raw[..i];
      if !ev.statsIncluded {
        r := r + [ev.(isDuplicate := false)];
      } else {
        var key := DupKey(ev);
        SeenIffBefore(raw, i);
        if key in seen {
          r := r + [ev.(isDuplicate := true)];
        } else {
          seen := seen + {key};
          r := r + [ev.(isDuplicate := false)];
        }
      }
      i := i + 1;
    }
  }

  /** The key of `s[i]` is among the included keys before it exactly when an earlier included event has it. */
  lemma SeenIffBefore(s: seq<Enriched>, i: int)
    requires 0 <= i < |s|
    ensures DupKey(s[i]) in IncludedKeys(s[..i]) <==> SeenBefore(s, i)
  {
    var key := DupKey(s[i]);
    IncludedKeysMember(s[..i], key);
    if key in IncludedKeys(s[..i]) {
      var j :| 0 <= j < i && s[..i][j].statsIncluded && DupKey(s[..i][j]) == key;
      assert s[j] == s[..i][j];
    }
    if SeenBefore(s, i) {
      var j :| 0 <= j < i && s[j].statsIncluded && DupKey(s[j]) == key;
      assert s[..i][j] == s[j];
    }
  }

  /** Events of calendars excluded from statistics are never duplicates. */
  lemma ExcludedNotDuplicate(s: seq<Enriched>, i: int)
    requires 0 <= i < |s| && !s[i].statsIncluded
    ensures !Marked(s)[i].isDuplicate
  {
  }

  /**
   * Among included events sharing a key, exactly one is left unmarked: the
   * first; every later one is a duplicate.
   */
  lemma FirstOfKeyKept(s: seq<Enriched>, i: int, j: int)
    requires 0 <= i < j < |s| && s[i].statsIncluded && s[j].statsIncluded && DupKey(s[i]) == DupKey(s[j])
    ensures Marked(s)[j].isDuplicate
  {
    assert SeenBefore(s, j);
  }

  /** Marking changes nothing but the duplicate flag. */
  lemma MarkedKeepsEvents(s: seq<Enriched>, i: int)
    requires 0 <= i < |s|
    ensures Marked(s)[i].(isDuplicate := s[i].isDuplicate) == s[i]
  {
  }

  /** `allEvents`: the enriched events of every calendar with their duplicate flags. */
  method AllEvents(calendars: seq<Calendar>, rules: Rules, tz: int) returns (r: seq<Enriched>)
    ensures r == Marked(RawEvents(calendars, rules, tz))
  {
    r := MarkDuplicates(RawEvents(calendars, rules, tz));
  }

  /** `serviceEvents`: the events of calendars included in statistics. */
  function ServiceEvents(all: seq<Enriched>): (r: seq<Enriched>)
    ensures forall e :: e in r <==> e in all && e.statsIncluded
  {
    Filter(all, IsIncluded)
  }

  predicate IsIncluded(e: Enriched) { e.statsIncluded }

  // ---------------------------------------------------------------- teacher options

  /** A name the teacher menu lists: not blank, not the placeholder, not "unknown teacher" in any case. */
  predicate IsTeacherToken(t: string) {
    t != [] && t != "—" && Lower(t) != "unknown teacher"
  }

  /** The teacher names of an event, read back from its joined teacher text. */
  function TeacherTokens(e: Enriched): (r: seq<string>)
    ensures forall t :: t in r ==> IsTeacherToken(t)
  {
    Filter(TrimAll(JsSpace, SplitOn(Trim(JsSpace, e.extractedTeacher), ',')), IsTeacherToken)
  }

  /** Every teacher occurrence of the events, event by event. */
  function AllTokens(events: seq<Enriched>): seq<string> {
    if events == [] then [] else AllTokens(events[..|events| - 1]) + TeacherTokens(events[|events| - 1])
  }

  /** One entry of the teacher menu. */
  datatype TeacherOption = TeacherOption(name: string, count: nat)

  /** The menu order: more occurrences first, then by name. */
  predicate OptionLe(a: TeacherOption, b: TeacherOption) {
    a.count > b.count || (a.count == b.count && StrLe(a.name, b.name))
  }

  lemma OptionLeTotalPreorder()
    ensures TotalPreorder(OptionLe)
  {
    forall a, b ensures OptionLe(a, b) || OptionLe(b, a) {
      StrLeTotal(a.name, b.name);
    }
    forall a, b, c | OptionLe(a, b) && OptionLe(b, c) ensures OptionLe(a, c) {
      if a.count == b.count == c.count {
        StrLeTrans(a.name, b.name, c.name);
      }
    }
  }

  /** The entries for `names`, each with its number of occurrences in `tokens`. */
  function Tally(names: seq<string>, tokens: seq<string>): (r: seq<TeacherOption>)
    ensures |r| == |names|
    ensures forall i :: 0 <= i < |r| ==> r[i] == TeacherOption(names[i], multiset(tokens)[names[i]])
  {
    seq(|names|, i requires 0 <= i < |names| => TeacherOption(names[i], multiset(tokens)[names[i]]))
  }

  /** `names` lists the distinct elements of `s` by first appearance, and `counts` maps each to its occurrences. */
  ghost predicate CountedAs(names: seq<string>, counts: map<string, nat>, s: seq<string>) {
    && names == Dedup(s)
    && (forall n :: n in counts <==> n in names)
    && (forall n :: n in counts ==> counts[n] == multiset(s)[n])
  }

  /**
   * The counting pass of `teacherOptions`: a map from name to occurrences,
   * and the order in which the names first appear.
   */
  method CountTeachers(service: seq<Enriched>) returns (names: seq<string>, counts: map<string, nat>)
    ensures CountedAs(names, counts, AllTokens(service))
  {
    names := [];
    counts := map[];
    var i := 0;
    while i < |service|
      invariant 0 <= i <= |service|
      invariant CountedAs(names, counts, AllTokens(service[..i]))
    {
      assert service[..i + 1][..i] == service[..i];
      names, counts := CountTokens(TeacherTokens(service[i]), names, counts, AllTokens(service[..i]));
      i := i + 1;
    }
    assert service[..i] == service;
  }

  /** Counting the names of one event on top of the counts of the earlier ones. */
  method CountTokens(tokens: seq<string>, names0: seq<string>, counts0: map<string, nat>, ghost before: seq<string>)
    returns (names: seq<string>, counts: map<string, nat>)
    requires CountedAs(names0, counts0, before)
    ensures CountedAs(names, counts, before + tokens)
  {
    names, counts := names0, counts0;
    var j := 0;
    assert before + tokens[..0] == before;
    while j < |tokens|
      invariant 0 <= j <= |tokens|
      invariant CountedAs(names, counts, before + tokens[..j])
    {
      var t := tokens[j];
      assert before + tokens[..j + 1] == (before + tokens[..j]) + [t];
      CountStep(before + tokens[..j], t, names, counts);
      counts := counts[t := (if t in counts then counts[t] else 0) + 1];
      if t !in names {
        names := names + [t];
      }
      j := j + 1;
    }
    assert tokens[..j] == tokens;
  }

  /** Counting one more occurrence of `t` keeps the counts and the first-appearance order exact. */
  lemma CountStep(prefix: seq<string>, t: string, names: seq<string>, counts: map<string, nat>)
    requires CountedAs(names, counts, prefix)
    ensures CountedAs(if t !in names then names + [t] else names,
                      counts[t := (if t in counts then counts[t] else 0) + 1], prefix + [t])
  {
    var names1 := if t !in names then names + [t] else names;
    var counts1 := counts[t := (if t in counts then counts[t] else 0) + 1];
    DedupSnoc(prefix, t);
    assert names1 == Dedup(prefix + [t]);
    assert forall n :: n in counts1 <==> n in names1;
    assert forall n :: n in counts <==> n in prefix;
    CountOne(prefix, t, counts);
  }

  /** The occurrence counts after one more `t`. */
  lemma CountOne(prefix: seq<string>, t: string, counts: map<string, nat>)
    requires forall n :: n in counts <==> n in prefix
    requires forall n :: n in counts ==> counts[n] == multiset(prefix)[n]
    ensures var counts1 := counts[t := (if t in counts then counts[t] else 0) + 1];
      forall n :: n in counts1 ==> counts1[n] == multiset(prefix + [t])[n]
  {
    assert multiset(prefix + [t]) == multiset(prefix) + multiset{t};
    assert t !in counts ==> multiset(prefix)[t] == 0;
  }

  /**
   * `teacherOptions`: each listed teacher name of the service events once,
   * with its number of occurrences, most frequent first and then by name.
   */
  method TeacherOptions(service: seq<Enriched>) returns (r: seq<TeacherOption>)
    ensures SortedBy(r, OptionLe)
    ensures multiset(r) == multiset(Tally(Dedup(AllTokens(service)), AllTokens(service)))
  {
    var names, counts := CountTeachers(service);
    var entries := seq(|names|, i requires 0 <= i < |names| => TeacherOption(names[i], counts[names[i]]));
    assert entries == Tally(names, AllTokens(service));
    OptionLeTotalPreorder();
    r := SortBy(entries, OptionLe);
  }

  /**
   * The menu entries: exactly the listed names that occur, each once and
   * never the placeholder or "unknown teacher", with a count of at least one.
   */
  lemma TallyEntries(service: seq<Enriched>)
    ensures var tokens := AllTokens(service); var names := Dedup(tokens);
      && NoDup(names)
      && (forall n :: n in names <==> n in tokens)
      && (forall o :: o in Tally(names, tokens) ==> IsTeacherToken(o.name) && o.count >= 1)
  {
    var tokens := AllTokens(service);
    var names := Dedup(tokens);
    TokensListed(service);
    forall o | o in Tally(names, tokens) ensures IsTeacherToken(o.name) && o.count >= 1 {
      var i :| 0 <= i < |names| && Tally(names, tokens)[i] == o;
      assert names[i] in tokens;
    }
  }

  /** Every occurrence counted is a listable teacher name. */
  lemma {:induction false} TokensListed(events: seq<Enriched>)
    ensures forall t :: t in AllTokens(events) ==> IsTeacherToken(t)
  {
    if events != [] {
      TokensListed(events[..|events| - 1]);
    }
  }

  // ---------------------------------------------------------------- applyFilters

  /** `padStart`-rendered local date `YYYY-MM-DD` of an instant (`toLocalDateKey`). */
  function DateKey(t: int, tz: int): string {
    var d := JsTime.LocalDate(t, tz);
    IntToString(d.year) + "-" + Pad2(d.month) + "-" + Pad2(d.day)
  }

  /**
   * `parseTimeToMinutes` on `H:M` text: `null` when the hours or the minutes
   * are not a number, `NaN` when there are no minutes at all.
   */
  datatype TimeBound = Unset | Minutes(value: int) | NotANumber

  function ParseTimeToMinutes(t: string): TimeBound
  {
    var parts := SplitOn(t, ':');
    match ToNumber(parts[0])
    case None => Unset
    case Some(h) =>
      if |parts| < 2 then NotANumber
      else
        match ToNumber(parts[1])
        case None => Unset
        case Some(m) => Minutes(h * 60 + m)
  }

  /** A time bound of the filters: none when the field is empty. */
  function Bound(field: string): TimeBound {
    if field == [] then Unset else ParseTimeToMinutes(field)
  }

  /** `x <= b` for a bound that is set; false against `NaN`. */
  predicate AtMost(x: int, b: TimeBound) { b.Minutes? && x <= b.value }

  /** `x >= b` for a bound that is set; false against `NaN`. */
  predicate AtLeast(x: int, b: TimeBound) { b.Minutes? && x >= b.value }

  /** The source the filters select, unless the caller overrides it. */
  function EffectiveSource(f: FilterState, sourceOverride: Option<Source>): Source {
    if sourceOverride.Some? then sourceOverride.value else f.source
  }

  /** A main calendar is configured. */
  predicate HasMainId(mainId: Option<string>) { mainId.Some? && mainId.value != [] }

  predicate IsVisibleEvent(e: Enriched) { e.isVisible }

  function OfCalendar(id: string): Enriched -> bool {
    (e: Enriched) => e.calendarId == id
  }

  /** The source stage. */
  predicate InSource(src: Source, mainId: Option<string>, e: Enriched) {
    match src
    case Service => e.statsIncluded
    case Main => HasMainId(mainId) && e.calendarId == mainId.value
    case Visible => e.isVisible
    case All => true
  }

  /** The lower date bound: the local start date is not before it. */
  predicate KeepDateStart(f: FilterState, tz: int, e: Enriched) {
    f.dateStart == [] || (e.startTs.Some? && StrLe(f.dateStart, DateKey(e.startTs.value, tz)))
  }

  /** The upper date bound: the local start date is not after it. */
  predicate KeepDateEnd(f: FilterState, tz: int, e: Enriched) {
    f.dateEnd == [] || (e.startTs.Some? && StrLe(DateKey(e.startTs.value, tz), f.dateEnd))
  }

  /** The time window on local minutes since midnight: the event overlaps the bounds that are set. */
  predicate KeepTime(f: FilterState, tz: int, e: Enriched) {
    var startMin := Bound(f.startTime);
    var endMin := Bound(f.endTime);
    if startMin.Unset? && endMin.Unset? then true
    else if e.startTs.None? || e.endTs.None? then false
    else
      var evStart := JsTime.LocalMinuteOfDay(e.startTs.value, tz);
      var evEnd := JsTime.LocalMinuteOfDay(e.endTs.value, tz);
      if !startMin.Unset? && !endMin.Unset? then AtMost(evStart, endMin) && AtLeast(evEnd, startMin)
      else if !startMin.Unset? then AtLeast(evEnd, startMin)
      else AtMost(evStart, endMin)
  }

  /** `getDay()` renumbered to 1 = Monday, ..., 7 = Sunday. */
  function IsoWeekday(w: int): (d: int)
    requires 0 <= w < 7
    ensures 1 <= d <= 7
    ensures w == 0 ==> d == 7
    ensures w != 0 ==> d == w
  {
    if w == 0 then 7 else w
  }

  /** The weekday stage: with days selected, the local start weekday must be one of them. */
  predicate KeepDays(f: FilterState, tz: int, e: Enriched) {
    f.days == [] || (e.startTs.Some? && IsoWeekday(JsTime.LocalWeekday(e.startTs.value, tz)) in f.days)
  }

  /** An event passes every stage of `applyFilters`. */
  predicate Keeps(f: FilterState, src: Source, mainId: Option<string>, tz: int, e: Enriched) {
    && InSource(src, mainId, e) && KeepDateStart(f, tz, e) && KeepDateEnd(f, tz, e)
    && KeepTime(f, tz, e) && KeepDays(f, tz, e)
  }

  // The stages as tests, and the tests passed up to each stage.

  function SourceTest(src: Source, mainId: Option<string>): Enriched -> bool {
    e => InSource(src, mainId, e)
  }

  function DateStartTest(f: FilterState, tz: int): Enriched -> bool {
    e => KeepDateStart(f, tz, e)
  }

  function DateEndTest(f: FilterState, tz: int): Enriched -> bool {
    e => KeepDateEnd(f, tz, e)
  }

  function TimeTest(f: FilterState, tz: int): Enriched -> bool {
    e => KeepTime(f, tz, e)
  }

  function DaysTest(f: FilterState, tz: int): Enriched -> bool {
    e => KeepDays(f, tz, e)
  }

  function UpToDateStart(f: FilterState, src: Source, mainId: Option<string>, tz: int): Enriched -> bool {
    e => InSource(src, mainId, e) && KeepDateStart(f, tz, e)
  }

  function UpToDateEnd(f: FilterState, src: Source, mainId: Option<string>, tz: int): Enriched -> bool {
    e => InSource(src, mainId, e) && KeepDateStart(f, tz, e) && KeepDateEnd(f, tz, e)
  }

  function UpToTime(f: FilterState, src: Source, mainId: Option<string>, tz: int): Enriched -> bool {
    e => InSource(src, mainId, e) && KeepDateStart(f, tz, e) && KeepDateEnd(f, tz, e) && KeepTime(f, tz, e)
  }

  function KeepsTest(f: FilterState, src: Source, mainId: Option<string>, tz: int): Enriched -> bool {
    e => Keeps(f, src, mainId, tz, e)
  }

  /** One more filtering stage: filtering by `p` and then by `q` is filtering by `r` when `r` is `p` and `q`. */
  lemma Stage<T(!new)>(s: seq<T>, p: T -> bool, q: T -> bool, r: T -> bool)
    requires forall x :: r(x) == (p(x) && q(x))
    ensures Filter(Filter(s, p), q) == Filter(s, r)
  {
    FilterFilter(s, p, q);
    FilterExt(s, x => p(x) && q(x), r);
  }

  /** The source stage selects the events of the source (none for "main" without a main calendar). */
  lemma SourceStage(all: seq<Enriched>, src: Source, mainId: Option<string>)
    ensures Filter(all, SourceTest(src, mainId)) ==
      match src
      case Service => Filter(all, IsIncluded)
      case Main => if HasMainId(mainId) then Filter(all, OfCalendar(mainId.value)) else []
      case Visible => Filter(all, IsVisibleEvent)
      case All => all
  {
    match src {
      case Service => FilterExt(all, IsIncluded, SourceTest(src, mainId));
      case Main =>
        if HasMainId(mainId) {
          FilterExt(all, OfCalendar(mainId.value), SourceTest(src, mainId));
        } else {
          FilterNone(all, SourceTest(src, mainId));
        }
      case Visible => FilterExt(all, IsVisibleEvent, SourceTest(src, mainId));
      case All => FilterAll(all, SourceTest(src, mainId));
    }
  }

  /** The lower date stage, applied when the bound is set. */
  lemma DateStartStage(all: seq<Enriched>, f: FilterState, src: Source, mainId: Option<string>, tz: int)
    ensures Filter(all, UpToDateStart(f, src, mainId, tz)) ==
      if f.dateStart != [] then Filter(Filter(all, SourceTest(src, mainId)), DateStartTest(f, tz))
      else Filter(all, SourceTest(src, mainId))
  {
    if f.dateStart != [] {
      Stage(all, SourceTest(src, mainId), DateStartTest(f, tz), UpToDateStart(f, src, mainId, tz));
    } else {
      FilterExt(all, SourceTest(src, mainId), UpToDateStart(f, src, mainId, tz));
    }
  }

  /** The upper date stage, applied when the bound is set. */
  lemma DateEndStage(all: seq<Enriched>, f: FilterState, src: Source, mainId: Option<string>, tz: int)
    ensures Filter(all, UpToDateEnd(f, src, mainId, tz)) ==
      if f.dateEnd != [] then Filter(Filter(all, UpToDateStart(f, src, mainId, tz)), DateEndTest(f, tz))
      else Filter(all, UpToDateStart(f, src, mainId, tz))
  {
    if f.dateEnd != [] {
      Stage(all, UpToDateStart(f, src, mainId, tz), DateEndTest(f, tz), UpToDateEnd(f, src, mainId, tz));
    } else {
      FilterExt(all, UpToDateStart(f, src, mainId, tz), UpToDateEnd(f, src, mainId, tz));
    }
  }

  /** The time stage, applied when either bound is set. */
  lemma TimeStage(all: seq<Enriched>, f: FilterState, src: Source, mainId: Option<string>, tz: int)
    ensures Filter(all, UpToTime(f, src, mainId, tz)) ==
      if !Bound(f.startTime).Unset? || !Bound(f.endTime).Unset? then
        Filter(Filter(all, UpToDateEnd(f, src, mainId, tz)), TimeTest(f, tz))
      else Filter(all, UpToDateEnd(f, src, mainId, tz))
  {
    if !Bound(f.startTime).Unset? || !Bound(f.endTime).Unset? {
      Stage(all, UpToDateEnd(f, src, mainId, tz), TimeTest(f, tz), UpToTime(f, src, mainId, tz));
    } else {
      FilterExt(all, UpToDateEnd(f, src, mainId, tz), UpToTime(f, src, mainId, tz));
    }
  }

  /** The weekday stage, applied when days are selected. */
  lemma DaysStage(all: seq<Enriched>, f: FilterState, src: Source, mainId: Option<string>, tz: int)
    ensures Filter(all, KeepsTest(f, src, mainId, tz)) ==
      if |f.days| > 0 then Filter(Filter(all, UpToTime(f, src, mainId, tz)), DaysTest(f, tz))
      else Filter(all, UpToTime(f, src, mainId, tz))
  {
    if |f.days| > 0 {
      Stage(all, UpToTime(f, src, mainId, tz), DaysTest(f, tz), KeepsTest(f, src, mainId, tz));
    } else {
      FilterExt(all, UpToTime(f, src, mainId, tz), KeepsTest(f, src, mainId, tz));
    }
  }

  /** The `switch (source)` of `applyFilters`. */
  method SourceEvents(all: seq<Enriched>, src: Source, mainId: Option<string>) returns (result: seq<Enriched>)
    ensures result == Filter(all, SourceTest(src, mainId))
  {
    result := all;
    match src {
      case Service =>
        result := Filter(result, IsIncluded);
      case Main =>
        if HasMainId(mainId) {
          result := Filter(result, OfCalendar(mainId.value));
        } else {
          result := [];
        }
      case Visible =>
        result := Filter(result, IsVisibleEvent);
      case All =>
    }
    SourceStage(all, src, mainId);
  }

  /**
   * `applyFilters(sourceOverride)`: the events of the source, then the date
   * bounds, the time window and the weekdays, each stage applied only when
   * its field is set.
   */
  method ApplyFilters(all: seq<Enriched>, f: FilterState, sourceOverride: Option<Source>,
                      mainId: Option<string>, tz: int) returns (result: seq<Enriched>)
    ensures result == Filter(all, KeepsTest(f, EffectiveSource(f, sourceOverride), mainId, tz))
  {
    var src := EffectiveSource(f, sourceOverride);
    result := SourceEvents(all, src, mainId);

    if f.dateStart != [] {
      result := Filter(result, DateStartTest(f, tz));
    }
    DateStartStage(all, f, src, mainId, tz);

    if f.dateEnd != [] {
      result := Filter(result, DateEndTest(f, tz));
    }
    DateEndStage(all, f, src, mainId, tz);

    var startMin := if f.startTime != [] then ParseTimeToMinutes(f.startTime) else Unset;
    var endMin := if f.endTime != [] then ParseTimeToMinutes(f.endTime) else Unset;
    if !startMin.Unset? || !endMin.Unset? {
      result := Filter(result, TimeTest(f, tz));
    }
    TimeStage(all, f, src, mainId, tz);

    if |f.days| > 0 {
      result := Filter(result, DaysTest(f, tz));
    }
    DaysStage(all, f, src, mainId, tz);
  }

  /** The "main" source without a configured main calendar selects nothing. */
  lemma MainWithoutId(all: seq<Enriched>, f: FilterState, mainId: Option<string>, tz: int)
    requires !HasMainId(mainId)
    ensures Filter(all, KeepsTest(f, Main, mainId, tz)) == []
  {
    FilterNone(all, KeepsTest(f, Main, mainId, tz));
  }

  /** With both time bounds set, an event is kept when it starts by the end bound and ends from the start bound on. */
  lemma BothTimeBounds(f: FilterState, tz: int, e: Enriched, lo: int, hi: int)
    requires Bound(f.startTime) == Minutes(lo) && Bound(f.endTime) == Minutes(hi)
    ensures KeepTime(f, tz, e) <==>
      (&& e.startTs.Some? && e.endTs.Some?
       && JsTime.LocalMinuteOfDay(e.startTs.value, tz) <= hi && JsTime.LocalMinuteOfDay(e.endTs.value, tz) >= lo)
  {
  }

  /** A time bound that reads as `NaN` keeps nothing. */
  lemma NotANumberKeepsNothing(f: FilterState, tz: int, e: Enriched)
    requires Bound(f.startTime) == NotANumber
    ensures !KeepTime(f, tz, e)
  {
  }

  /** Sunday counts as day 7 of the weekday filter. */
  lemma SundayIsSeven(f: FilterState, tz: int, e: Enriched)
    requires f.days != [] && e.startTs.Some? && JsTime.LocalWeekday(e.startTs.value, tz) == 0
    ensures KeepDays(f, tz, e) <==> 7 in f.days
  {
  }

  /** Filters that are all unset keep every event of the source. */
  lemma NoFiltersKeepSource(f: FilterState, src: Source, mainId: Option<string>, tz: int, e: Enriched)
    requires f.dateStart == [] && f.dateEnd == [] && f.startTime == [] && f.endTime == [] && f.days == []
    ensures Keeps(f, src, mainId, tz, e) <==> InSource(src, mainId, e)
  {
  }

  /** An `HH:MM` text of two-digit hours and minutes reads as minutes since midnight. */
  lemma ParseTimeOfInput(h: nat, m: nat)
    requires h < 24 && m < 60
    ensures ParseTimeToMinutes(Pad2(h) + ":" + Pad2(m)) == Minutes(h * 60 + m)
  {
    var a, b := Pad2(h), Pad2(m);
    NoColonInDigits(a);
    NoColonInDigits(b);
    assert SplitOn(a + ":" + b, ':') == [a, b] by {
      SplitOnPrefix(a, ':', b);
      SplitOnFree(b, ':');
    }
    DigitsRead(a);
    DigitsRead(b);
  }

  /** A time with no colon but a valid hour count reads as `NaN`. */
  lemma ParseTimeNoColon(t: string)
    requires ':' !in t && ToNumber(t).Some?
    ensures ParseTimeToMinutes(t) == NotANumber
  {
    SplitOnFree(t, ':');
  }

  lemma NoColonInDigits(s: string)
    requires AllDigits(s)
    ensures ':' !in s
  {
    assert forall i :: 0 <= i < |s| ==> IsDigit(s[i]);
  }

  /** `Number` of a non-empty digit string is its value. */
  lemma DigitsRead(s: string)
    requires s != [] && AllDigits(s)
    ensures ToNumber(s) == Some(DigitsValue(s))
  {
    assert !IsSpace(JsSpace, s[0]) && !IsSpace(JsSpace, s[|s| - 1]) by {
      assert IsDigit(s[0]) && IsDigit(s[|s| - 1]);
    }
    TrimTrimmed(JsSpace, s);
  }

  // ---------------------------------------------------------------- search

  /** An event matches a lower-cased term in its subject, type or teacher text. */
  predicate Matches(e: Enriched, term: string) {
    || (e.subject != [] && Contains(Lower(e.subject), term))
    || (e.courseType != [] && Contains(Lower(e.courseType), term))
    || Contains(Lower(e.extractedTeacher), term)
  }

  /** `searchResults`: nothing for an empty query, else the filtered events matching it in any case. */
  function SearchResults(filtered: seq<Enriched>, query: string): (r: seq<Enriched>)
    ensures query == [] ==> r == []
    ensures query != [] ==> forall e :: e in r <==> e in filtered && Matches(e, Lower(query))
  {
    if query == [] then [] else Filter(filtered, e => Matches(e, Lower(query)))
  }

  /** The search ignores the case of the query. */
  lemma SearchIgnoresCase(filtered: seq<Enriched>, query: string)
    ensures SearchResults(filtered, Lower(query)) == SearchResults(filtered, query)
  {
    CaseIdempotent(query);
    if query != [] {
      FilterExt(filtered, e => Matches(e, Lower(Lower(query))), e => Matches(e, Lower(query)));
    }
  }
}
