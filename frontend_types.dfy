/**
 * The records the frontend passes around (`types.ts` and the shapes the hooks
 * build): stored events and calendars, the events the derivation pipeline
 * enriches, and the user's normalisation rules.
 *
 * Instants are integers in milliseconds since the Unix epoch; hour counts are
 * exact `real` values.  A JavaScript `Date` the pipeline keeps next to an
 * instant is represented by the instant alone: its local fields are computed
 * from it in a fixed host offset.
 */
module FrontendTypes {
  import opened Base
  import IcsParser

  /**
   * `NormalizedEvent` as the frontend keeps it: the normaliser's fields, the
   * raw event it came from, and the teacher, promo and description fields
   * that the persistence layer fills in with defaults.
   */
  datatype Event = Event(
    raw: IcsParser.RawEvent, subject: string, courseType: string,
    startIso: string, endIso: string, durationHours: real,
    teachers: seq<string>, promos: seq<string>, cleanedDescription: string)

  /** The `remote` part of a calendar imported from a URL. */
  datatype Remote = Remote(
    sourceUrl: string, lastSyncedAt: Option<int>, lastAttemptAt: Option<int>,
    lastManualRefreshAt: Option<int>, lastError: Option<string>, lastWarning: Option<string>)

  /** `Calendar`: an imported calendar with its display and statistics switches. */
  datatype Calendar = Calendar(
    id: string, name: string, color: string, visible: bool, includeInStats: bool,
    events: seq<Event>, remote: Option<Remote>)

  /**
   * `EnrichedEvent`: an event after the derivation pipeline, with normalised
   * subject, teachers and promos, the hours it counts for, its instants when
   * they parse, the attributes of its calendar and its duplicate flag.
   */
  datatype Enriched = Enriched(
    raw: IcsParser.RawEvent, subject: string, courseType: string,
    startIso: string, endIso: string, durationHours: real,
    teachers: seq<string>, promos: seq<string>, extractedTeacher: string, promo: string,
    startTs: Option<int>, endTs: Option<int>,
    color: string, statsIncluded: bool, calendarName: string, calendarId: string,
    isVisible: bool, isDuplicate: bool)

  /** The three kinds of names the rules act on. */
  datatype Category = Teachers | Promos | Subjects

  /** `hidden`: per category, the names to drop (a name counts as hidden when mapped to `true`). */
  datatype Hidden = Hidden(teachers: map<string, bool>, promos: map<string, bool>, subjects: map<string, bool>)

  /** `NormalizationRules`: per category a renaming map, and the hidden names. */
  datatype Rules = Rules(
    teachers: map<string, string>, promos: map<string, string>, subjects: map<string, string>,
    hidden: Hidden)

  /** `rules[category]`. */
  function MappingOf(rules: Rules, cat: Category): map<string, string> {
    match cat
    case Teachers => rules.teachers
    case Promos => rules.promos
    case Subjects => rules.subjects
  }

  /** `rules.hidden[category]`. */
  function HiddenOf(rules: Rules, cat: Category): map<string, bool> {
    match cat
    case Teachers => rules.hidden.teachers
    case Promos => rules.hidden.promos
    case Subjects => rules.hidden.subjects
  }

  /** `{ ...rules, [category]: m }`. */
  function WithMapping(rules: Rules, cat: Category, m: map<string, string>): (r: Rules)
    ensures MappingOf(r, cat) == m && r.hidden == rules.hidden
    ensures forall c :: c != cat ==> MappingOf(r, c) == MappingOf(rules, c)
  {
    match cat
    case Teachers => rules.(teachers := m)
    case Promos => rules.(promos := m)
    case Subjects => rules.(subjects := m)
  }

  /** `{ ...rules, hidden: { ...rules.hidden, [category]: h } }`. */
  function WithHidden(rules: Rules, cat: Category, h: map<string, bool>): (r: Rules)
    ensures HiddenOf(r, cat) == h
    ensures forall c :: MappingOf(r, c) == MappingOf(rules, c)
    ensures forall c :: c != cat ==> HiddenOf(r, c) == HiddenOf(rules, c)
  {
    match cat
    case Teachers => rules.(hidden := rules.hidden.(teachers := h))
    case Promos => rules.(hidden := rules.hidden.(promos := h))
    case Subjects => rules.(hidden := rules.hidden.(subjects := h))
  }

  /** `Boolean(hideMap[key])`: the key is mapped to `true`. */
  predicate IsHidden(hideMap: map<string, bool>, key: string) {
    key in hideMap && hideMap[key]
  }
}
