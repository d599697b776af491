/**
 * The interface state of the frontend (`uiState.tsx`): which view is shown,
 * the subject a course page is opened on, the search text, the filters and
 * their panel, the mobile menu, the language, the selected teacher and the
 * colour theme, changed only through the reducer's actions.
 *
 * What the browser stores (`localStorage`) and the detected language are
 * parameters of the initial-state functions.
 */
module UiState {
  import opened Base
  import opened Lang
  import opened AdvancedFilters

  datatype View = Agenda | Courses | Stats | Settings | Search | Fix
  datatype ThemeMode = System | Light | Dark

  datatype UiState = UiState(
    view: View, courseSubject: string, searchQuery: string, showFilters: bool,
    filters: FilterState, mobileMenuOpen: bool, lang: Lang, selectedTeacher: string,
    themeMode: ThemeMode)

  datatype Action =
    | SetView(view: View)
    | SetCourseSubject(subject: string)
    | SetSearchQuery(query: string)
    | SetShowFilters(show: bool)
    | SetFilters(filters: FilterState)
    | SetMobileMenuOpen(open: bool)
    | SetLang(lang: Lang)
    | SetSelectedTeacher(teacher: string)
    | SetThemeMode(mode: ThemeMode)
    | ResetAfterPurge
    | Unknown(tag: string)

  /** The fields of the state, to say which ones an action may change. */
  datatype Field =
    ViewField | CourseSubjectField | SearchQueryField | ShowFiltersField | FiltersField
    | MobileMenuOpenField | LangField | SelectedTeacherField | ThemeModeField

  /** `s` and `t` agree on every field outside `changed`. */
  predicate AgreeOutside(s: UiState, t: UiState, changed: set<Field>) {
    && (ViewField !in changed ==> s.view == t.view)
    && (CourseSubjectField !in changed ==> s.courseSubject == t.courseSubject)
    && (SearchQueryField !in changed ==> s.searchQuery == t.searchQuery)
    && (ShowFiltersField !in changed ==> s.showFilters == t.showFilters)
    && (FiltersField !in changed ==> s.filters == t.filters)
    && (MobileMenuOpenField !in changed ==> s.mobileMenuOpen == t.mobileMenuOpen)
    && (LangField !in changed ==> s.lang == t.lang)
    && (SelectedTeacherField !in changed ==> s.selectedTeacher == t.selectedTeacher)
    && (ThemeModeField !in changed ==> s.themeMode == t.themeMode)
  }

  /** The fields an action is allowed to change. */
  function Changes(action: Action): set<Field> {
    match action
    case SetView(_) => {ViewField}
    case SetCourseSubject(_) => {CourseSubjectField}
    case SetSearchQuery(_) => {SearchQueryField}
    case SetShowFilters(_) => {ShowFiltersField}
    case SetFilters(_) => {FiltersField}
    case SetMobileMenuOpen(_) => {MobileMenuOpenField}
    case SetLang(_) => {LangField}
    case SetSelectedTeacher(_) => {SelectedTeacherField}
    case SetThemeMode(_) => {ThemeModeField}
    case ResetAfterPurge =>
      {ViewField, CourseSubjectField, SearchQueryField, FiltersField, ShowFiltersField,
       MobileMenuOpenField, SelectedTeacherField}
    case Unknown(_) => {}
  }

  /** What the state looks like after a purge: the settings view, nothing selected, filters reset, panels closed. */
  predicate IsPurged(s: UiState) {
    && s.view == Settings && s.courseSubject == "" && s.searchQuery == ""
    && s.filters == InitialFilters && !s.showFilters && !s.mobileMenuOpen
    && s.selectedTeacher == ""
  }

  /**
   * `reducer`: each `set_*` action writes its one field and leaves the rest;
   * `reset_after_purge` returns to the settings view with everything but the
   * language and the theme cleared; an action of any other type changes nothing.
   */
  function Reduce(state: UiState, action: Action): (r: UiState)
    ensures AgreeOutside(state, r, Changes(action))
    ensures action.SetView? ==> r.view == action.view
    ensures action.SetCourseSubject? ==> r.courseSubject == action.subject
    ensures action.SetSearchQuery? ==> r.searchQuery == action.query
    ensures action.SetShowFilters? ==> r.showFilters == action.show
    ensures action.SetFilters? ==> r.filters == action.filters
    ensures action.SetMobileMenuOpen? ==> r.mobileMenuOpen == action.open
    ensures action.SetLang? ==> r.lang == action.lang
    ensures action.SetSelectedTeacher? ==> r.selectedTeacher == action.teacher
    ensures action.SetThemeMode? ==> r.themeMode == action.mode
    ensures action.ResetAfterPurge? ==> IsPurged(r)
    ensures action.Unknown? ==> r == state
  {
    match action
    case SetView(v) => state.(view := v)
    case SetCourseSubject(v) => state.(courseSubject := v)
    case SetSearchQuery(v) => state.(searchQuery := v)
    case SetShowFilters(v) => state.(showFilters := v)
    case SetFilters(v) => state.(filters := v)
    case SetMobileMenuOpen(v) => state.(mobileMenuOpen := v)
    case SetLang(v) => state.(lang := v)
    case SetSelectedTeacher(v) => state.(selectedTeacher := v)
    case SetThemeMode(v) => state.(themeMode := v)
    case ResetAfterPurge =>
      state.(view := Settings, courseSubject := "", searchQuery := "", filters := InitialFilters,
             showFilters := false, mobileMenuOpen := false, selectedTeacher := "")
    case Unknown(_) => state
  }

  /** Dispatching the same action twice in a row is dispatching it once. */
  lemma ReduceIdempotent(state: UiState, action: Action)
    ensures Reduce(Reduce(state, action), action) == Reduce(state, action)
  {
  }

  /** The state after a purge depends only on the language and the theme in use before it. */
  lemma PurgeForgets(s: UiState, t: UiState)
    requires s.lang == t.lang && s.themeMode == t.themeMode
    ensures Reduce(s, ResetAfterPurge) == Reduce(t, ResetAfterPurge)
  {
  }

  /** Actions that write different fields commute. */
  lemma IndependentActionsCommute(state: UiState, a: Action, b: Action)
    requires !a.ResetAfterPurge? && !b.ResetAfterPurge? && Changes(a) !! Changes(b)
    ensures Reduce(Reduce(state, a), b) == Reduce(Reduce(state, b), a)
  {
  }

  /** `getInitialLang`: a stored `fr` or `en`, otherwise the detected language. */
  function InitialLang(saved: Option<string>, detected: Lang): (r: Lang)
    ensures saved == Some("fr") ==> r == Fr
    ensures saved == Some("en") ==> r == En
    ensures saved != Some("fr") && saved != Some("en") ==> r == detected
  {
    if saved == Some("fr") then Fr else if saved == Some("en") then En else detected
  }

  /** `getInitialThemeMode`: a stored `system`, `light` or `dark`, otherwise `system`. */
  function InitialThemeMode(saved: Option<string>): (r: ThemeMode)
    ensures saved == Some("light") ==> r == Light
    ensures saved == Some("dark") ==> r == Dark
    ensures saved != Some("light") && saved != Some("dark") ==> r == System
  {
    if saved == Some("system") then System
    else if saved == Some("light") then Light
    else if saved == Some("dark") then Dark
    else System
  }

  /** `getInitialSelectedTeacher`: the stored teacher, or empty when nothing (or an empty text) is stored. */
  function InitialSelectedTeacher(saved: Option<string>): (r: string)
    ensures saved.Some? ==> r == saved.value
    ensures saved.None? ==> r == ""
  {
    if saved.Some? then saved.value else ""
  }

  /** `createInitialState`: the agenda view, nothing selected, filters at their initial value, stored preferences restored. */
  function CreateInitialState(savedLang: Option<string>, detected: Lang,
                              savedTeacher: Option<string>, savedTheme: Option<string>): (r: UiState)
    ensures r.view == Agenda && r.courseSubject == "" && r.searchQuery == ""
    ensures !r.showFilters && !r.mobileMenuOpen && r.filters == InitialFilters
    ensures r.lang == InitialLang(savedLang, detected)
    ensures r.selectedTeacher == InitialSelectedTeacher(savedTeacher)
    ensures r.themeMode == InitialThemeMode(savedTheme)
  {
    UiState(Agenda, "", "", false, InitialFilters, false, InitialLang(savedLang, detected),
            InitialSelectedTeacher(savedTeacher), InitialThemeMode(savedTheme))
  }

  /** A purge right after start-up only moves to the settings view and clears the restored teacher. */
  lemma PurgeAfterStart(savedLang: Option<string>, detected: Lang,
                        savedTeacher: Option<string>, savedTheme: Option<string>)
    ensures var s := CreateInitialState(savedLang, detected, savedTeacher, savedTheme);
      Reduce(s, ResetAfterPurge) == s.(view := Settings, selectedTeacher := "")
  {
  }
}
