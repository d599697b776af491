/**
 * The handlers of the application shell (`App.tsx`): whether any advanced
 * filter is in force, importing, removing, showing, counting and renaming
 * calendars, and jumping from a subject to the course explorer.  Each
 * handler is a function from the calendars and main calendar id before to
 * those after, together with what it hands to the persistence layer.
 */
module AppHandlers {
  import opened Base
  import opened Lists
  import opened Text
  import opened FrontendTypes
  import opened AdvancedFilters
  import U = UiState

  /** `CALENDAR_COLORS`: the colours imported calendars take in turn. */
  const CalendarColors: seq<string> :=
    ["#3b82f6", "#ef4444", "#10b981", "#f59e0b", "#8b5cf6", "#ec4899", "#6366f1"]

  // ---------------------------------------------------------------- filtersActive

  /** `filtersActive`: a date or time bound is set, the source is not the service calendars, or not all 7 days are listed. */
  function FiltersActive(f: FilterState): bool {
    if f.dateStart != "" || f.dateEnd != "" || f.startTime != "" || f.endTime != "" then true
    else if f.source != Service then true
    else if |f.days| != 7 then true
    else false
  }

  /** The filters are inactive exactly when they are the initial ones up to which seven days are listed. */
  lemma InactiveIsInitial(f: FilterState)
    ensures !FiltersActive(f) <==> f.(days := InitialFilters.days) == InitialFilters && |f.days| == 7
  {
  }

  /** Toggling one weekday of the initial filters puts a filter in force; toggling it back lifts it. */
  lemma ToggleDayActivates(d: int)
    ensures FiltersActive(ToggleDay(InitialFilters, d))
    ensures !FiltersActive(ToggleDay(ToggleDay(InitialFilters, d), d))
  {
    if 1 <= d <= 7 {
      ToggleListedDay(d);
    } else {
      ToggleUnlistedDay(d);
    }
  }

  /** A listed weekday goes, leaving six, and comes back last, making seven again. */
  lemma ToggleListedDay(d: int)
    requires 1 <= d <= 7
    ensures |ToggleDayIn(InitialFilters.days, d)| == 6
    ensures |ToggleDayIn(ToggleDayIn(InitialFilters.days, d), d)| == 7
  {
    var days := InitialFilters.days;
    InitialDays();
    assert d in days;
    FilterOneOut(days, d);
  }

  /** Any other number is appended, and toggling it again drops it. */
  lemma ToggleUnlistedDay(d: int)
    requires !(1 <= d <= 7)
    ensures ToggleDayIn(InitialFilters.days, d) == InitialFilters.days + [d]
    ensures ToggleDayIn(ToggleDayIn(InitialFilters.days, d), d) == InitialFilters.days
  {
    var days := InitialFilters.days;
    InitialDays();
    assert d !in days;
    var p := (x: int) => x != d;
    FilterNone([d], p);
    FilterAll(days, p);
    FilterAppend(days, [d], p);
  }

  /** Dropping from a duplicate-free sequence an element it holds leaves one element fewer. */
  lemma {:induction false} FilterOneOut(s: seq<int>, d: int)
    requires NoDup(s) && d in s
    ensures |Filter(s, x => x != d)| == |s| - 1
  {
    if s[0] == d {
      assert d !in s[1..];
      FilterAll(s[1..], x => x != d);
    } else {
      assert NoDup(s[1..]);
      FilterOneOut(s[1..], d);
    }
  }

  // ---------------------------------------------------------------- the calendar list

  /** The calendars in the shell's state and the main calendar id (`null` is `None`). */
  datatype Shell = Shell(calendars: seq<Calendar>, mainCalendarId: Option<string>)

  /** A handler's result: the new state, and the calendars and main id it saves (`None` leaves the stored main id as it is). */
  datatype Outcome = Outcome(shell: Shell, savedCalendars: seq<Calendar>, savedMainId: Option<string>)

  /** `lastSyncedAt ?? Date.now()`. */
  function SyncTime(lastSyncedAt: Option<int>, now: int): int {
    if lastSyncedAt.Some? then lastSyncedAt.value else now
  }

  /** The calendar `handleImport` builds as the `n`-th one. */
  function ImportedCalendar(n: nat, id: string, name: string, events: seq<Event>, isService: bool,
                            sourceUrl: string, lastSyncedAt: Option<int>, lastWarning: Option<string>,
                            now: int): Calendar
  {
    var synced := SyncTime(lastSyncedAt, now);
    var remote :=
      if sourceUrl != "" then Some(Remote(sourceUrl, Some(synced), Some(synced), None, None, lastWarning))
      else None;
    Calendar(id, name, CalendarColors[n % |CalendarColors|], n == 0, isService, events, remote)
  }

  /**
   * `handleImport`: appends one calendar whose id is the current time in
   * milliseconds, written in decimal, and makes it the main calendar when it
   * is the first one.  An empty `sourceUrl` stands for an absent one.
   */
  function HandleImport(s: Shell, name: string, events: seq<Event>, isService: bool,
                        sourceUrl: string, lastSyncedAt: Option<int>, lastWarning: Option<string>,
                        now: int): (o: Outcome)
    ensures var n := |s.calendars|;
      |o.shell.calendars| == n + 1 && o.shell.calendars[..n] == s.calendars &&
      var c := o.shell.calendars[n];
      c.id == IntToString(now) && c.name == name && c.events == events &&
      c.color == CalendarColors[n % 7] && (c.visible <==> n == 0) && c.includeInStats == isService &&
      (c.remote.Some? <==> sourceUrl != "") &&
      (c.remote.Some? ==>
        c.remote.value.sourceUrl == sourceUrl &&
        c.remote.value.lastSyncedAt == Some(SyncTime(lastSyncedAt, now)) &&
        c.remote.value.lastAttemptAt == Some(SyncTime(lastSyncedAt, now)) &&
        c.remote.value.lastManualRefreshAt == None && c.remote.value.lastError == None &&
        c.remote.value.lastWarning == lastWarning)
    ensures s.calendars == [] ==> o.shell.mainCalendarId == Some(IntToString(now))
    ensures s.calendars != [] ==> o.shell.mainCalendarId == s.mainCalendarId
    ensures o.savedCalendars == o.shell.calendars
    ensures o.savedMainId.Some? <==> s.calendars == [] || (s.mainCalendarId.Some? && s.mainCalendarId.value != "")
    ensures o.savedMainId.Some? ==> o.savedMainId == o.shell.mainCalendarId
  {
    var n := |s.calendars|;
    var newId := IntToString(now);
    var updated := s.calendars + [ImportedCalendar(n, newId, name, events, isService, sourceUrl, lastSyncedAt, lastWarning, now)];
    var newMain := if n == 0 then Some(newId) else s.mainCalendarId;
    var main := if n == 0 && newMain.Some? && newMain.value != "" then newMain else s.mainCalendarId;
    Outcome(Shell(updated, main), updated,
            if newMain.Some? && newMain.value != "" then newMain else None)
  }

  /** The test `c.id !== id`. */
  function OtherId(id: string): Calendar -> bool {
    (c: Calendar) => c.id != id
  }

  /** `calendars.filter(c => c.id !== id)`: the calendars not carrying that id, in their order. */
  function Remaining(cals: seq<Calendar>, id: string): seq<Calendar> {
    Filter(cals, OtherId(id))
  }

  /** Removal keeps the other calendars in their order: removing around a removed one is removing from each side. */
  lemma RemoveKeepsOrder(a: seq<Calendar>, c: Calendar, b: seq<Calendar>)
    ensures Remaining(a + [c] + b, c.id) == Remaining(a, c.id) + Remaining(b, c.id)
  {
    var p := OtherId(c.id);
    FilterAppend(a + [c], b, p);
    FilterAppend(a, [c], p);
    FilterNone([c], p);
  }

  /** A list without that id loses nothing. */
  lemma RemoveAbsent(cals: seq<Calendar>, id: string)
    requires forall c :: c in cals ==> c.id != id
    ensures Remaining(cals, id) == cals
  {
    FilterAll(cals, OtherId(id));
  }

  /**
   * `handleRemoveCalendar`: drops the calendars with that id and clears the
   * main id when it named them; the empty string saved in that case is the
   * stored form of "no main calendar".
   */
  function HandleRemove(s: Shell, id: string): (o: Outcome)
    ensures o.shell.calendars == Remaining(s.calendars, id)
    ensures forall c :: c in o.shell.calendars <==> c in s.calendars && c.id != id
    ensures o.shell.mainCalendarId == if s.mainCalendarId == Some(id) then None else s.mainCalendarId
    ensures o.savedCalendars == o.shell.calendars
    ensures o.savedMainId == if s.mainCalendarId == Some(id) then Some("") else None
  {
    var updated := Remaining(s.calendars, id);
    Outcome(Shell(updated, if s.mainCalendarId == Some(id) then None else s.mainCalendarId), updated,
            if s.mainCalendarId == Some(id) then Some("") else None)
  }

  /** Removing a calendar just imported gives back the calendars before the import, and the main id too when there were some. */
  lemma ImportThenRemove(s: Shell, name: string, events: seq<Event>, isService: bool,
                         sourceUrl: string, lastSyncedAt: Option<int>, lastWarning: Option<string>, now: int)
    requires forall c :: c in s.calendars ==> c.id != IntToString(now)
    requires s.mainCalendarId != Some(IntToString(now))
    ensures var imported := HandleImport(s, name, events, isService, sourceUrl, lastSyncedAt, lastWarning, now).shell;
      var back := HandleRemove(imported, IntToString(now)).shell;
      back.calendars == s.calendars &&
      (s.calendars != [] ==> back.mainCalendarId == s.mainCalendarId) &&
      (s.calendars == [] ==> back.mainCalendarId == None)
  {
    var id := IntToString(now);
    var c := ImportedCalendar(|s.calendars|, id, name, events, isService, sourceUrl, lastSyncedAt, lastWarning, now);
    RemoveKeepsOrder(s.calendars, c, []);
    RemoveAbsent(s.calendars, id);
    assert Remaining([], id) == [];
    assert s.calendars + [c] + [] == s.calendars + [c];
  }

  /** `calendars.map(c => c.id === id ? f(c) : c)`. */
  function UpdateWhere(cals: seq<Calendar>, id: string, f: Calendar -> Calendar): (r: seq<Calendar>)
    ensures |r| == |cals|
  {
    seq(|cals|, i requires 0 <= i < |cals| => if cals[i].id == id then f(cals[i]) else cals[i])
  }

  /** `handleToggleCalendar`: flips `visible` on the calendars with that id. */
  function HandleToggleVisible(s: Shell, id: string): (o: Outcome)
    ensures |o.shell.calendars| == |s.calendars| && o.shell.mainCalendarId == s.mainCalendarId
    ensures forall i :: 0 <= i < |s.calendars| ==>
      o.shell.calendars[i] == if s.calendars[i].id == id then s.calendars[i].(visible := !s.calendars[i].visible) else s.calendars[i]
    ensures o.savedCalendars == o.shell.calendars && o.savedMainId == None
  {
    var updated := UpdateWhere(s.calendars, id, (c: Calendar) => c.(visible := !c.visible));
    Outcome(s.(calendars := updated), updated, None)
  }

  /** `handleToggleStats`: flips `includeInStats` on the calendars with that id. */
  function HandleToggleStats(s: Shell, id: string): (o: Outcome)
    ensures |o.shell.calendars| == |s.calendars| && o.shell.mainCalendarId == s.mainCalendarId
    ensures forall i :: 0 <= i < |s.calendars| ==>
      o.shell.calendars[i] == if s.calendars[i].id == id then s.calendars[i].(includeInStats := !s.calendars[i].includeInStats) else s.calendars[i]
    ensures o.savedCalendars == o.shell.calendars && o.savedMainId == None
  {
    var updated := UpdateWhere(s.calendars, id, (c: Calendar) => c.(includeInStats := !c.includeInStats));
    Outcome(s.(calendars := updated), updated, None)
  }

  /** `handleRenameCalendar`: sets the name of the calendars with that id. */
  function HandleRename(s: Shell, id: string, name: string): (o: Outcome)
    ensures |o.shell.calendars| == |s.calendars| && o.shell.mainCalendarId == s.mainCalendarId
    ensures forall i :: 0 <= i < |s.calendars| ==>
      o.shell.calendars[i] == if s.calendars[i].id == id then s.calendars[i].(name := name) else s.calendars[i]
    ensures o.savedCalendars == o.shell.calendars && o.savedMainId == None
  {
    var updated := UpdateWhere(s.calendars, id, (c: Calendar) => c.(name := name));
    Outcome(s.(calendars := updated), updated, None)
  }

  /** Toggling twice restores the calendars; renaming twice to the same name is renaming once. */
  lemma {:induction false} TogglesUndo(s: Shell, id: string, name: string)
    ensures HandleToggleVisible(HandleToggleVisible(s, id).shell, id).shell == s
    ensures HandleToggleStats(HandleToggleStats(s, id).shell, id).shell == s
    ensures HandleRename(HandleRename(s, id, name).shell, id, name).shell == HandleRename(s, id, name).shell
  {
    var v := HandleToggleVisible(HandleToggleVisible(s, id).shell, id).shell;
    assert v.calendars == s.calendars;
    var t := HandleToggleStats(HandleToggleStats(s, id).shell, id).shell;
    assert t.calendars == s.calendars;
    var once := HandleRename(s, id, name).shell;
    assert HandleRename(once, id, name).shell.calendars == once.calendars;
  }

  /** None of the three edits changes which ids are listed, or where. */
  lemma EditsKeepIds(s: Shell, id: string, name: string, i: int)
    requires 0 <= i < |s.calendars|
    ensures HandleToggleVisible(s, id).shell.calendars[i].id == s.calendars[i].id
    ensures HandleToggleStats(s, id).shell.calendars[i].id == s.calendars[i].id
    ensures HandleRename(s, id, name).shell.calendars[i].id == s.calendars[i].id
  {
  }

  // ---------------------------------------------------------------- handleCourseSubjectJump

  /** `handleCourseSubjectJump`: an empty subject does nothing; otherwise set the subject, then show the course explorer. */
  function CourseSubjectJump(ui: U.UiState, subject: string): (r: U.UiState)
    ensures subject == "" ==> r == ui
    ensures subject != "" ==>
      r.courseSubject == subject && r.view == U.Courses &&
      U.AgreeOutside(ui, r, {U.ViewField, U.CourseSubjectField})
  {
    if subject == "" then ui
    else U.Reduce(U.Reduce(ui, U.SetCourseSubject(subject)), U.SetView(U.Courses))
  }
}
