/**
 * The defaults `useCalendarPersistence.ts` gives stored records when it
 * loads them: fields a stored value may lack or hold with the wrong type
 * are filled in, and a schedule saved by an old version (a flat list of
 * events) becomes a single calendar.
 *
 * A stored field that may be missing or of the wrong type is an `Option`:
 * `None` stands for every value that fails the code's test (not an array,
 * not a string, null or undefined, falsy).
 */
module Persistence {
  import opened Base
  import opened FrontendTypes
  import IcsParser

  /** A stored `NormalizedEvent`, whose last three fields may be absent or malformed. */
  datatype StoredEvent = StoredEvent(
    raw: IcsParser.RawEvent, subject: string, courseType: string,
    startIso: string, endIso: string, durationHours: real,
    teachers: Option<seq<string>>, promos: Option<seq<string>>, cleanedDescription: Option<string>)

  /** A stored `Calendar`: the switches may be missing and the events not an array. */
  datatype StoredCalendar = StoredCalendar(
    id: string, name: string, color: string, visible: Option<bool>, includeInStats: Option<bool>,
    events: Option<seq<StoredEvent>>, remote: Option<Remote>)

  /** Stored rules: each of the four parts may be missing. */
  datatype StoredRules = StoredRules(
    teachers: Option<map<string, string>>, promos: Option<map<string, string>>,
    subjects: Option<map<string, string>>, hidden: Option<Hidden>)

  /**
   * What was saved under `current_schedule`: a flat list of events, as an
   * old version stored it, or a list of calendars.
   */
  datatype Saved = FlatEvents(events: seq<StoredEvent>) | CalendarList(calendars: seq<StoredCalendar>)

  /** `PersistedState`. */
  datatype PersistedState = PersistedState(calendars: seq<Calendar>, mainCalendarId: Option<string>, rules: Rules)

  /** An event as it is written back: every field present. */
  function StoreEvent(e: Event): StoredEvent {
    StoredEvent(e.raw, e.subject, e.courseType, e.startIso, e.endIso, e.durationHours,
                Some(e.teachers), Some(e.promos), Some(e.cleanedDescription))
  }

  /** `withEventDefaults`: missing or malformed lists become empty, a missing description the empty string. */
  function WithEventDefaults(s: StoredEvent): (e: Event)
    ensures e.teachers == s.teachers.GetOr([]) && e.promos == s.promos.GetOr([])
    ensures e.cleanedDescription == s.cleanedDescription.GetOr("")
    ensures StoreEvent(e).raw == s.raw && e.subject == s.subject && e.courseType == s.courseType
    ensures e.startIso == s.startIso && e.endIso == s.endIso && e.durationHours == s.durationHours
  {
    Event(s.raw, s.subject, s.courseType, s.startIso, s.endIso, s.durationHours,
          s.teachers.GetOr([]), s.promos.GetOr([]), s.cleanedDescription.GetOr(""))
  }

  /** An event whose fields are all present and well-typed comes back unchanged; so the defaults are idempotent. */
  lemma EventDefaultsKeep(e: Event)
    ensures WithEventDefaults(StoreEvent(e)) == e
  {
  }

  lemma EventDefaultsIdempotent(s: StoredEvent)
    ensures WithEventDefaults(StoreEvent(WithEventDefaults(s))) == WithEventDefaults(s)
  {
    EventDefaultsKeep(WithEventDefaults(s));
  }

  /** The `remote` part rebuilt: the last attempt falls back to the last sync. */
  function RemoteDefaults(r: Remote): (d: Remote)
    ensures d.sourceUrl == r.sourceUrl && d.lastSyncedAt == r.lastSyncedAt
    ensures d.lastAttemptAt == if r.lastAttemptAt.Some? then r.lastAttemptAt else r.lastSyncedAt
    ensures d.lastManualRefreshAt == r.lastManualRefreshAt
    ensures d.lastError == r.lastError && d.lastWarning == r.lastWarning
  {
    r.(lastAttemptAt := if r.lastAttemptAt.Some? then r.lastAttemptAt else r.lastSyncedAt)
  }

  /** `cal.events.map(withEventDefaults)`. */
  function EventsDefaults(es: seq<StoredEvent>): (r: seq<Event>)
    ensures |r| == |es| && forall i :: 0 <= i < |es| ==> r[i] == WithEventDefaults(es[i])
  {
    seq(|es|, i requires 0 <= i < |es| => WithEventDefaults(es[i]))
  }

  /**
   * `withCalendarDefaults`: both switches default to on, a non-array event
   * list becomes empty, and the remote part gets its defaults.
   */
  function WithCalendarDefaults(c: StoredCalendar): (r: Calendar)
    ensures r.id == c.id && r.name == c.name && r.color == c.color
    ensures r.visible == c.visible.GetOr(true) && r.includeInStats == c.includeInStats.GetOr(true)
    ensures c.events.None? ==> r.events == []
    ensures c.events.Some? ==> (|r.events| == |c.events.value| &&
      forall i :: 0 <= i < |r.events| ==> r.events[i] == WithEventDefaults(c.events.value[i]))
    ensures r.remote.Some? <==> c.remote.Some?
    ensures c.remote.Some? ==> r.remote.value == RemoteDefaults(c.remote.value)
  {
    Calendar(c.id, c.name, c.color, c.visible.GetOr(true), c.includeInStats.GetOr(true),
             if c.events.Some? then EventsDefaults(c.events.value) else [],
             if c.remote.Some? then Some(RemoteDefaults(c.remote.value)) else None)
  }

  /** A calendar as it is written back. */
  function StoreCalendar(c: Calendar): StoredCalendar {
    StoredCalendar(c.id, c.name, c.color, Some(c.visible), Some(c.includeInStats),
                   Some(seq(|c.events|, i requires 0 <= i < |c.events| => StoreEvent(c.events[i]))), c.remote)
  }

  /**
   * Loading a calendar that was written back keeps it, except that a missing
   * last attempt takes the last sync time; loading twice is loading once.
   */
  lemma CalendarDefaultsKeep(c: Calendar)
    ensures var r := WithCalendarDefaults(StoreCalendar(c));
      r.(remote := c.remote) == c &&
      (c.remote.Some? ==> r.remote == Some(RemoteDefaults(c.remote.value)))
  {
    var r := WithCalendarDefaults(StoreCalendar(c));
    assert r.events == c.events;
  }

  lemma CalendarDefaultsIdempotent(s: StoredCalendar)
    ensures WithCalendarDefaults(StoreCalendar(WithCalendarDefaults(s))) == WithCalendarDefaults(s)
  {
    var c := WithCalendarDefaults(s);
    CalendarDefaultsKeep(c);
  }

  /** `createDefaultNormalizationRules`: every map empty. */
  function DefaultRules(): (r: Rules)
    ensures forall c :: MappingOf(r, c) == map[] && HiddenOf(r, c) == map[]
  {
    Rules(map[], map[], map[], Hidden(map[], map[], map[]))
  }

  /** `coerceNormalizationRules`: missing parts become empty, present parts are kept; a falsy input is `{}`. */
  function CoerceRules(input: Option<StoredRules>): (r: Rules)
    ensures input.None? ==> r == DefaultRules()
    ensures input.Some? ==> (r.teachers == input.value.teachers.GetOr(map[]) &&
      r.promos == input.value.promos.GetOr(map[]) && r.subjects == input.value.subjects.GetOr(map[]) &&
      r.hidden == input.value.hidden.GetOr(Hidden(map[], map[], map[])))
  {
    var base := input.GetOr(StoredRules(None, None, None, None));
    Rules(base.teachers.GetOr(map[]), base.promos.GetOr(map[]), base.subjects.GetOr(map[]),
          base.hidden.GetOr(Hidden(map[], map[], map[])))
  }

  /** Rules as they are written back. */
  function StoreRules(r: Rules): StoredRules {
    StoredRules(Some(r.teachers), Some(r.promos), Some(r.subjects), Some(r.hidden))
  }

  /** Coercing complete rules changes nothing, so coercion is idempotent. */
  lemma CoerceKeeps(r: Rules)
    ensures CoerceRules(Some(StoreRules(r))) == r
  {
  }

  lemma CoerceIdempotent(input: Option<StoredRules>)
    ensures CoerceRules(Some(StoreRules(CoerceRules(input)))) == CoerceRules(input)
  {
    CoerceKeeps(CoerceRules(input));
  }

  const LegacyId := "legacy"
  const LegacyName := "Imported Schedule"

  /**
   * The part of `loadPersistedState` that reads what the database returned:
   * rules coerced when present, the saved main id when it is a non-empty
   * string, and the schedule either migrated from a flat event list or read
   * as calendars.
   */
  function Load(saved: Option<Saved>, savedMainId: Option<string>, savedRules: Option<StoredRules>,
                legacyColor: string): (st: PersistedState)
    ensures st.rules == if savedRules.Some? then CoerceRules(savedRules) else DefaultRules()
  {
    var rules := if savedRules.Some? then CoerceRules(savedRules) else DefaultRules();
    var mainId := if savedMainId.Some? && savedMainId.value != "" then savedMainId else None;
    if saved.Some? && saved.value.FlatEvents? && |saved.value.events| > 0 then
      var legacy := Calendar(LegacyId, LegacyName, legacyColor, true, true, EventsDefaults(saved.value.events), None);
      PersistedState([legacy], Some(LegacyId), rules)
    else if saved.Some? && saved.value.CalendarList? then
      var cs := saved.value.calendars;
      PersistedState(seq(|cs|, i requires 0 <= i < |cs| => WithCalendarDefaults(cs[i])), mainId, rules)
    else
      PersistedState([], mainId, rules)
  }

  /** A non-empty flat event list becomes the one main calendar "legacy", with the events in order. */
  lemma LegacyMigration(events: seq<StoredEvent>, savedMainId: Option<string>, savedRules: Option<StoredRules>,
                        legacyColor: string)
    requires |events| > 0
    ensures var st := Load(Some(FlatEvents(events)), savedMainId, savedRules, legacyColor);
      |st.calendars| == 1 && st.mainCalendarId == Some(LegacyId) &&
      st.calendars[0].id == LegacyId && st.calendars[0].name == LegacyName &&
      st.calendars[0].color == legacyColor && st.calendars[0].visible && st.calendars[0].includeInStats &&
      |st.calendars[0].events| == |events| &&
      forall i :: 0 <= i < |events| ==> st.calendars[0].events[i] == WithEventDefaults(events[i])
  {
  }

  /** Otherwise the saved main id is used exactly when it is a non-empty string, and each calendar gets its defaults. */
  lemma LoadCalendars(saved: Option<Saved>, savedMainId: Option<string>, savedRules: Option<StoredRules>,
                      legacyColor: string)
    requires !(saved.Some? && saved.value.FlatEvents? && |saved.value.events| > 0)
    ensures var st := Load(saved, savedMainId, savedRules, legacyColor);
      (st.mainCalendarId.Some? <==> savedMainId.Some? && savedMainId.value != "") &&
      (st.mainCalendarId.Some? ==> st.mainCalendarId == savedMainId) &&
      (saved.Some? && saved.value.CalendarList? ==>
         |st.calendars| == |saved.value.calendars| &&
         forall i :: 0 <= i < |st.calendars| ==> st.calendars[i] == WithCalendarDefaults(saved.value.calendars[i])) &&
      (saved.None? || saved.value.FlatEvents? ==> st.calendars == [])
  {
  }
}
