/**
 * The teaching-service dashboard (`ServiceDashboard.tsx`): which events count
 * for the selected teacher and time scope, the hours per kind of session,
 * and the per-teacher, per-subject breakdown with its sections and rows.
 *
 * The translated labels the view reads (`t.unknown_teacher`,
 * `t.unknown_subject`) are parameters, and so is the current instant.  A
 * missing selected teacher is the empty string, which the view treats the
 * same way.
 */
module ServiceDashboard {
  import opened Base
  import opened Lists
  import opened Text
  import opened FrontendTypes
  import opened OrderedMaps

  // ---------------------------------------------------------------- kinds of session

  /** The columns hours are booked under. */
  datatype Bucket = Cm | Td | Tp | Project | Reunion | Exam | Other

  /**
   * The bucket of a type: the first of CM, TD, TP, project, meeting and exam
   * whose marker occurs in the upper-cased type, else "other".
   */
  function BucketOf(courseType: string): Bucket {
    var t := Upper(courseType);
    if Contains(t, "CM") then Cm
    else if Contains(t, "TD") then Td
    else if Contains(t, "TP") then Tp
    else if Contains(t, "PROJET") || Contains(t, "PROJECT") then Project
    else if Contains(t, "RÉUNION") || Contains(t, "REUNION") then Reunion
    else if Contains(t, "EXAM") || Contains(t, "DS") || Contains(t, "CT") || Contains(t, "CC") then Exam
    else Other
  }

  /** Hours per bucket. */
  datatype Hours = Hours(cm: real, td: real, tp: real, project: real, reunion: real, exam: real, other: real)

  const NoHours := Hours(0.0, 0.0, 0.0, 0.0, 0.0, 0.0, 0.0)

  function HoursIn(h: Hours, b: Bucket): real {
    match b
    case Cm => h.cm
    case Td => h.td
    case Tp => h.tp
    case Project => h.project
    case Reunion => h.reunion
    case Exam => h.exam
    case Other => h.other
  }

  /** `totals[bucket] += d`: the one bucket grows by `d`, the others stay. */
  function AddHours(h: Hours, b: Bucket, d: real): (r: Hours)
    ensures forall c :: HoursIn(r, c) == HoursIn(h, c) + (if c == b then d else 0.0)
  {
    match b
    case Cm => h.(cm := h.cm + d)
    case Td => h.(td := h.td + d)
    case Tp => h.(tp := h.tp + d)
    case Project => h.(project := h.project + d)
    case Reunion => h.(reunion := h.reunion + d)
    case Exam => h.(exam := h.exam + d)
    case Other => h.(other := h.other + d)
  }

  /** All seven buckets together. */
  function AllHours(h: Hours): real {
    h.cm + h.td + h.tp + h.project + h.reunion + h.exam + h.other
  }

  /** Adding to one bucket adds as much to the whole. */
  lemma AddHoursAll(h: Hours, b: Bucket, d: real)
    ensures AllHours(AddHours(h, b, d)) == AllHours(h) + d
  {
  }

  // ---------------------------------------------------------------- which events count

  /** `isUnknownTeacherToken`: blank, a dash, or an "unknown teacher" label in any case. */
  predicate IsUnknownTeacherToken(value: string, unknownTeacher: string) {
    var trimmed := Trim(JsSpace, value);
    trimmed == [] || trimmed == "—" || Lower(trimmed) == "unknown teacher" || Lower(trimmed) == Lower(unknownTeacher)
  }

  /** Every token is an unknown-teacher token (vacuously so for no token). */
  predicate AllUnknown(tokens: seq<string>, unknownTeacher: string) {
    forall k :: 0 <= k < |tokens| ==> IsUnknownTeacherToken(tokens[k], unknownTeacher)
  }

  /** Some token, lower-cased, is `target`. */
  predicate NamesTeacher(tokens: seq<string>, target: string) {
    exists k :: 0 <= k < |tokens| && Lower(tokens[k]) == target
  }

  /**
   * The teacher filter of `baseEvents`: with no selected teacher every event;
   * otherwise the events that name that teacher (in any case) or name only
   * unknown teachers.
   */
  predicate TeacherKept(ev: Enriched, selected: string, unknownTeacher: string) {
    var tokens := CommaItems(Lower(ev.extractedTeacher));
    selected == [] || NamesTeacher(tokens, Lower(selected)) || AllUnknown(tokens, unknownTeacher)
  }

  /** The service scope: everything, what is done, what is still to do. */
  datatype Scope = Everything | Done | Todo

  /**
   * The time filter of `baseEvents`: the end instant, or the start instant
   * when the end is invalid, compared with now; an event with neither is
   * only in the whole service.
   */
  predicate InScope(ev: Enriched, scope: Scope, now: int) {
    match scope
    case Everything => true
    case Done =>
      if ev.endTs.Some? then ev.endTs.value <= now
      else ev.startTs.Some? && ev.startTs.value <= now
    case Todo =>
      if ev.endTs.Some? then ev.endTs.value > now
      else ev.startTs.Some? && ev.startTs.value > now
  }

  /** Done and to do split the events with a valid instant, and nothing else. */
  lemma ScopesPartition(ev: Enriched, now: int)
    ensures !(InScope(ev, Done, now) && InScope(ev, Todo, now))
    ensures InScope(ev, Done, now) || InScope(ev, Todo, now) <==> ev.endTs.Some? || ev.startTs.Some?
  {
  }

  /** `baseEvents`: the events that pass the teacher filter and the scope filter, in order. */
  function BaseEvents(events: seq<Enriched>, selected: string, unknownTeacher: string, scope: Scope,
                      now: int): (r: seq<Enriched>)
    ensures forall ev :: ev in r <==> ev in events && TeacherKept(ev, selected, unknownTeacher) && InScope(ev, scope, now)
  {
    var teacherFiltered := if selected == [] then events else Filter(events, ev => TeacherKept(ev, selected, unknownTeacher));
    if scope == Everything then teacherFiltered else Filter(teacherFiltered, ev => InScope(ev, scope, now))
  }

  // ---------------------------------------------------------------- the summary

  /** The hours an event brings to its bucket: none when it is flagged as a duplicate. */
  function Booked(ev: Enriched): real {
    if ev.isDuplicate then 0.0 else ev.durationHours
  }

  /** The hours booked under bucket `b` by the non-duplicate events of `events`. */
  function BucketHours(events: seq<Enriched>, b: Bucket): real {
    if events == [] then 0.0
    else
      var ev := events[|events| - 1];
      BucketHours(events[..|events| - 1], b) + (if BucketOf(ev.courseType) == b then Booked(ev) else 0.0)
  }

  /** The hours of all non-duplicate events. */
  function BookedHours(events: seq<Enriched>): real {
    if events == [] then 0.0 else BookedHours(events[..|events| - 1]) + Booked(events[|events| - 1])
  }

  /** The summary as the seven bucket sums. */
  function SummaryOf(events: seq<Enriched>): Hours {
    Hours(BucketHours(events, Cm), BucketHours(events, Td), BucketHours(events, Tp),
          BucketHours(events, Project), BucketHours(events, Reunion), BucketHours(events, Exam),
          BucketHours(events, Other))
  }

  /** Every non-duplicate event lands in exactly one bucket: the buckets add up to all booked hours. */
  lemma {:induction false} SummaryConserves(events: seq<Enriched>)
    ensures AllHours(SummaryOf(events)) == BookedHours(events)
  {
    if events != [] {
      SummaryConserves(events[..|events| - 1]);
    }
  }

  /**
   * `summary`: the seven bucket totals over the events, duplicates skipped,
   * then CM+TD+TP as the core total and that plus projects as the teaching
   * total.
   */
  method Summary(events: seq<Enriched>) returns (totals: Hours, totalCore: real, totalTeaching: real)
    ensures totals == SummaryOf(events)
    ensures totalCore == totals.cm + totals.td + totals.tp
    ensures totalTeaching == totalCore + totals.project
  {
    totals := NoHours;
    for i := 0 to |events|
      invariant totals == SummaryOf(events[..i])
    {
      var ev := events[i];
      assert events[..i + 1][..i] == events[..i];
      if !ev.isDuplicate {
        totals := AddHours(totals, BucketOf(ev.courseType), ev.durationHours);
      }
    }
    assert events[..|events|] == events;
    totalCore := totals.cm + totals.td + totals.tp;
    totalTeaching := totalCore + totals.project;
  }

  // ---------------------------------------------------------------- whom the hours go to

  /** The labels and the selection the breakdown depends on. */
  datatype Viewer = Viewer(selected: string, unknownTeacher: string, unknownSubject: string)

  /** `unknownTeacherLabel`: a dash when a teacher is selected, else the translated label. */
  function UnknownLabel(v: Viewer): string {
    if v.selected != [] then "—" else v.unknownTeacher
  }

  /**
   * `teacherNames`: with a selected teacher, that teacher when the event names
   * them, else the unknown label when it names nobody known, else nobody;
   * with no selection, the event's teachers unless they are all unknown.
   */
  function CreditedNames(ev: Enriched, v: Viewer): seq<string> {
    var tokens := CommaItems(Trim(JsSpace, ev.extractedTeacher));
    var isUnknown := AllUnknown(tokens, v.unknownTeacher);
    if v.selected != [] then
      if NamesTeacher(tokens, Lower(v.selected)) then [v.selected]
      else if isUnknown then [UnknownLabel(v)]
      else []
    else if !isUnknown && tokens != [] then tokens
    else [UnknownLabel(v)]
  }

  /** With a selection, hours only ever go to the selected teacher or to the dash. */
  lemma CreditedWhenSelected(ev: Enriched, v: Viewer)
    requires v.selected != []
    ensures forall n :: n in CreditedNames(ev, v) ==> n == v.selected || n == "—"
    ensures |CreditedNames(ev, v)| <= 1
  {
    var tokens := CommaItems(Trim(JsSpace, ev.extractedTeacher));
    assert CreditedNames(ev, v) ==
      if NamesTeacher(tokens, Lower(v.selected)) then [v.selected]
      else if AllUnknown(tokens, v.unknownTeacher) then ["—"] else [];
  }

  /**
   * Without a selection, an event's hours go to each teacher it names, or to
   * the unknown label when it names nobody known; never to nobody.
   */
  lemma CreditedWithoutSelection(ev: Enriched, v: Viewer)
    requires v.selected == []
    ensures var tokens := CommaItems(Trim(JsSpace, ev.extractedTeacher));
      CreditedNames(ev, v) == (if AllUnknown(tokens, v.unknownTeacher) then [v.unknownTeacher] else tokens)
  {
  }

  /** The subject an event is booked under: its subject, or the unknown-subject label, trimmed. */
  function SubjectLabel(ev: Enriched, v: Viewer): string {
    Trim(JsSpace, if ev.subject == [] then v.unknownSubject else ev.subject)
  }

  /** One (event, teacher) pair: hours for one subject entry of one teacher. */
  datatype Credit = Credit(teacher: string, subject: string, bucket: Bucket, hours: real)

  /** The credits of one event: one per credited name, none for a duplicate. */
  function CreditsOf(ev: Enriched, v: Viewer): (r: seq<Credit>)
    ensures ev.isDuplicate ==> r == []
    ensures !ev.isDuplicate ==> |r| == |CreditedNames(ev, v)|
    ensures forall k :: 0 <= k < |r| ==>
      r[k] == Credit(CreditedNames(ev, v)[k], SubjectLabel(ev, v), BucketOf(ev.courseType), ev.durationHours)
  {
    if ev.isDuplicate then []
    else
      var names := CreditedNames(ev, v);
      seq(|names|, k requires 0 <= k < |names| =>
        Credit(names[k], SubjectLabel(ev, v), BucketOf(ev.courseType), ev.durationHours))
  }

  /** The credits of all events, in event order. */
  function AllCredits(events: seq<Enriched>, v: Viewer): seq<Credit> {
    if events == [] then [] else AllCredits(events[..|events| - 1], v) + CreditsOf(events[|events| - 1], v)
  }

  /** A subject entry: hours per bucket, a total the view never fills in, and how many credits it got. */
  datatype Stats = Stats(hours: Hours, total: real, count: nat)

  const NoStats := Stats(NoHours, 0.0, 0)

  /** One credit more on an entry: its hours in its bucket, and one more count. */
  function Bump(e: Stats, b: Bucket, d: real): (r: Stats)
    ensures r.count == e.count + 1 && r.total == e.total
    ensures forall c :: HoursIn(r.hours, c) == HoursIn(e.hours, c) + (if c == b then d else 0.0)
  {
    Stats(AddHours(e.hours, b, d), e.total, e.count + 1)
  }

  /** The entry of `teacher` for `subject`: every credit of that pair, bumped in. */
  function Entry(cs: seq<Credit>, teacher: string, subject: string): Stats {
    if cs == [] then NoStats
    else
      var c := cs[|cs| - 1];
      var e := Entry(cs[..|cs| - 1], teacher, subject);
      if c.teacher == teacher && c.subject == subject then Bump(e, c.bucket, c.hours) else e
  }

  /** The number of credits of one pair. */
  function PairCount(cs: seq<Credit>, teacher: string, subject: string): nat {
    if cs == [] then 0
    else
      var c := cs[|cs| - 1];
      PairCount(cs[..|cs| - 1], teacher, subject) + (if c.teacher == teacher && c.subject == subject then 1 else 0)
  }

  /** An entry's count is the number of (event, teacher) pairs booked on it. */
  lemma {:induction false} EntryCount(cs: seq<Credit>, teacher: string, subject: string)
    ensures Entry(cs, teacher, subject).count == PairCount(cs, teacher, subject)
  {
    if cs != [] {
      EntryCount(cs[..|cs| - 1], teacher, subject);
    }
  }

  /** The teachers credited, in order, with repeats. */
  function TeachersOf(cs: seq<Credit>): seq<string> {
    if cs == [] then [] else TeachersOf(cs[..|cs| - 1]) + [cs[|cs| - 1].teacher]
  }

  /** The subjects credited to `teacher`, in order, with repeats. */
  function SubjectsOf(cs: seq<Credit>, teacher: string): seq<string> {
    if cs == [] then []
    else
      var c := cs[|cs| - 1];
      SubjectsOf(cs[..|cs| - 1], teacher) + (if c.teacher == teacher then [c.subject] else [])
  }

  /** The entries of teacher `n` for subject `s` agree with the credits so far. */
  ghost predicate SubjectAgrees(m: Table<Stats>, cs: seq<Credit>, n: string, s: string) {
    (s in m.at <==> s in SubjectsOf(cs, n)) && (s in m.at ==> m.at[s] == Entry(cs, n, s))
  }

  /** The table of teacher `n` agrees with the credits so far. */
  ghost predicate TeacherAgrees(teachers: Table<Table<Stats>>, cs: seq<Credit>, n: string) {
    && (n in teachers.at <==> n in TeachersOf(cs))
    && (n in teachers.at ==>
          teachers.at[n].keys == Dedup(SubjectsOf(cs, n)) && forall s :: SubjectAgrees(teachers.at[n], cs, n, s))
  }

  /**
   * The nested tables hold exactly the credits `cs`: teachers in order of
   * their first credit, each teacher's subjects in order of their first credit
   * to that teacher, and each entry summing the credits of its pair.
   */
  ghost predicate Accumulated(teachers: Table<Table<Stats>>, cs: seq<Credit>) {
    teachers.keys == Dedup(TeachersOf(cs)) && forall n :: TeacherAgrees(teachers, cs, n)
  }

  lemma AccumulatedEmpty()
    ensures Accumulated(Empty(), [])
  {
    forall n ensures TeacherAgrees(Empty(), [], n) {
    }
  }

  /** The credits of one pair, and the subjects of one teacher, after one more credit. */
  lemma CreditSnoc(cs: seq<Credit>, c: Credit, n: string, s: string)
    ensures TeachersOf(cs + [c]) == TeachersOf(cs) + [c.teacher]
    ensures SubjectsOf(cs + [c], n) == SubjectsOf(cs, n) + (if c.teacher == n then [c.subject] else [])
    ensures Entry(cs + [c], n, s) ==
      if c.teacher == n && c.subject == s then Bump(Entry(cs, n, s), c.bucket, c.hours) else Entry(cs, n, s)
  {
    assert (cs + [c])[..|cs|] == cs;
  }

  /** A teacher never credited has no subjects. */
  lemma {:induction false} SubjectsOfAbsent(cs: seq<Credit>, n: string)
    requires n !in TeachersOf(cs)
    ensures SubjectsOf(cs, n) == []
  {
    if cs != [] {
      SubjectsOfAbsent(cs[..|cs| - 1], n);
    }
  }

  /** A pair never credited has an empty entry. */
  lemma {:induction false} EntryAbsent(cs: seq<Credit>, n: string, s: string)
    requires s !in SubjectsOf(cs, n)
    ensures Entry(cs, n, s) == NoStats
  {
    if cs != [] {
      EntryAbsent(cs[..|cs| - 1], n, s);
    }
  }

  /** A credit for teacher `c.teacher` leaves every other teacher's table as it was. */
  lemma OtherTeacherStep(teachers: Table<Table<Stats>>, cs: seq<Credit>, c: Credit, n: string, r: Table<Table<Stats>>)
    requires TeacherAgrees(teachers, cs, n) && n != c.teacher
    requires n in r.at <==> n in teachers.at
    requires n in teachers.at ==> r.at[n] == teachers.at[n]
    ensures TeacherAgrees(r, cs + [c], n)
  {
    CreditSnoc(cs, c, n, "");
    assert SubjectsOf(cs + [c], n) == SubjectsOf(cs, n);
    if n in teachers.at {
      forall s ensures SubjectAgrees(r.at[n], cs + [c], n, s) {
        assert SubjectAgrees(teachers.at[n], cs, n, s);
        CreditSnoc(cs, c, n, s);
      }
    }
  }

  /** The table a credit's teacher has before it: theirs, or a new empty one. */
  lemma TableBefore(teachers: Table<Table<Stats>>, cs: seq<Credit>, n: string, tData: Table<Stats>)
    requires TeacherAgrees(teachers, cs, n)
    requires tData == if n in teachers.at then teachers.at[n] else Empty()
    ensures tData.keys == Dedup(SubjectsOf(cs, n)) && forall s :: SubjectAgrees(tData, cs, n, s)
  {
    if n !in teachers.at {
      SubjectsOfAbsent(cs, n);
    }
  }

  /** Booking a credit in its teacher's table bumps its own entry and keeps the others. */
  lemma TableStep(tData: Table<Stats>, cs: seq<Credit>, c: Credit, entry: Stats)
    requires tData.keys == Dedup(SubjectsOf(cs, c.teacher)) && forall s :: SubjectAgrees(tData, cs, c.teacher, s)
    requires entry == if c.subject in tData.at then tData.at[c.subject] else NoStats
    ensures var m := Put(tData, c.subject, Bump(entry, c.bucket, c.hours));
      m.keys == Dedup(SubjectsOf(cs + [c], c.teacher)) && forall s :: SubjectAgrees(m, cs + [c], c.teacher, s)
  {
    var n := c.teacher;
    var m := Put(tData, c.subject, Bump(entry, c.bucket, c.hours));
    CreditSnoc(cs, c, n, c.subject);
    DedupSnoc(SubjectsOf(cs, n), c.subject);
    assert SubjectAgrees(tData, cs, n, c.subject);
    if c.subject !in tData.at {
      EntryAbsent(cs, n, c.subject);
    }
    assert m.at[c.subject] == Entry(cs + [c], n, c.subject);
    forall s ensures SubjectAgrees(m, cs + [c], n, s) {
      assert SubjectAgrees(tData, cs, n, s);
      CreditSnoc(cs, c, n, s);
    }
  }

  /** One credit booked keeps the tables in step with the credits. */
  lemma BookStep(teachers: Table<Table<Stats>>, cs: seq<Credit>, c: Credit, tData: Table<Stats>, entry: Stats)
    requires Accumulated(teachers, cs)
    requires tData == if c.teacher in teachers.at then teachers.at[c.teacher] else Empty()
    requires entry == if c.subject in tData.at then tData.at[c.subject] else NoStats
    ensures Accumulated(Put(teachers, c.teacher, Put(tData, c.subject, Bump(entry, c.bucket, c.hours))), cs + [c])
  {
    var m := Put(tData, c.subject, Bump(entry, c.bucket, c.hours));
    var r := Put(teachers, c.teacher, m);
    var cs' := cs + [c];
    CreditSnoc(cs, c, c.teacher, "");
    DedupSnoc(TeachersOf(cs), c.teacher);
    assert TeacherAgrees(teachers, cs, c.teacher);
    TableBefore(teachers, cs, c.teacher, tData);
    TableStep(tData, cs, c, entry);
    assert TeacherAgrees(r, cs', c.teacher);
    forall n {:trigger TeacherAgrees(r, cs', n)} ensures TeacherAgrees(r, cs', n) {
      if n != c.teacher {
        assert TeacherAgrees(teachers, cs, n);
        OtherTeacherStep(teachers, cs, c, n, r);
      }
    }
  }

  /**
   * One iteration of the inner `forEach`: the teacher's table (created when
   * missing), its entry for the subject (created when missing), bumped.  The
   * view stores new tables and entries in the maps and then updates them
   * through shared references; here each level is stored once, updated.
   */
  method BookCredit(teachers: Table<Table<Stats>>, c: Credit, ghost cs: seq<Credit>) returns (r: Table<Table<Stats>>)
    requires Accumulated(teachers, cs)
    ensures Accumulated(r, cs + [c])
  {
    var tData := if c.teacher in teachers.at then teachers.at[c.teacher] else Empty();
    var entry := if c.subject in tData.at then tData.at[c.subject] else NoStats;
    BookStep(teachers, cs, c, tData, entry);
    entry := Bump(entry, c.bucket, c.hours);
    r := Put(teachers, c.teacher, Put(tData, c.subject, entry));
  }

  /** One credit per name, all for the same subject, bucket and hours. */
  function CreditsFor(names: seq<string>, subject: string, bucket: Bucket, hours: real): (r: seq<Credit>)
    ensures |r| == |names| && forall k :: 0 <= k < |r| ==> r[k] == Credit(names[k], subject, bucket, hours)
  {
    seq(|names|, k requires 0 <= k < |names| => Credit(names[k], subject, bucket, hours))
  }

  /** The inner `forEach`: each name in turn books the same hours on the same subject. */
  method BookNames(teachers: Table<Table<Stats>>, names: seq<string>, subject: string, bucket: Bucket,
                   hours: real, ghost before: seq<Credit>) returns (r: Table<Table<Stats>>)
    requires Accumulated(teachers, before)
    ensures Accumulated(r, before + CreditsFor(names, subject, bucket, hours))
  {
    r := teachers;
    ghost var own := CreditsFor(names, subject, bucket, hours);
    assert before + own[..0] == before;
    for j := 0 to |names|
      invariant Accumulated(r, before + own[..j])
    {
      var c := Credit(names[j], subject, bucket, hours);
      r := BookCredit(r, c, before + own[..j]);
      assert before + own[..j] + [c] == before + own[..j + 1];
    }
    assert own[..|names|] == own;
  }

  /** The body of the outer `forEach`: a duplicate is skipped, otherwise each credited name is booked. */
  method BookEvent(teachers: Table<Table<Stats>>, ev: Enriched, v: Viewer, ghost before: seq<Credit>)
    returns (r: Table<Table<Stats>>)
    requires Accumulated(teachers, before)
    ensures Accumulated(r, before + CreditsOf(ev, v))
  {
    if ev.isDuplicate {
      assert before + CreditsOf(ev, v) == before;
      return teachers;
    }
    var names := CreditedNames(ev, v);
    assert CreditsFor(names, SubjectLabel(ev, v), BucketOf(ev.courseType), ev.durationHours) == CreditsOf(ev, v);
    r := BookNames(teachers, names, SubjectLabel(ev, v), BucketOf(ev.courseType), ev.durationHours, before);
  }

  /**
   * The accumulation loop of `teacherStats`: for every event that is not a
   * duplicate, every credited name books the event's hours on its subject entry.
   */
  method TeacherTables(events: seq<Enriched>, v: Viewer) returns (teachers: Table<Table<Stats>>)
    ensures Accumulated(teachers, AllCredits(events, v))
  {
    teachers := Empty();
    AccumulatedEmpty();
    for i := 0 to |events|
      invariant Accumulated(teachers, AllCredits(events[..i], v))
    {
      assert events[..i + 1][..i] == events[..i];
      teachers := BookEvent(teachers, events[i], v, AllCredits(events[..i], v));
    }
    assert events[..|events|] == events;
  }

  // ---------------------------------------------------------------- sections and rows

  /** A subject row: its entry and the hours that count for the teacher's total. */
  datatype Row = Row(name: string, stats: Stats, filteredTotal: real)

  /** CM + TD + TP + projects: meetings, exams and other hours are left out. */
  function FilteredTotal(e: Stats): real {
    e.hours.cm + e.hours.td + e.hours.tp + e.hours.project
  }

  /** The view's column switches (meetings and exams hidden unless switched on). */
  datatype Columns = Columns(cm: bool, td: bool, tp: bool, project: bool, reunion: bool, exam: bool, other: bool)

  const InitialColumns := Columns(true, true, true, true, false, false, true)

  /** A row is shown when it has core or project hours, or hours in a switched-on extra column. */
  predicate RowShown(row: Row, cols: Columns) {
    var h := row.stats.hours;
    || h.cm > 0.0 || h.td > 0.0 || h.tp > 0.0 || h.project > 0.0
    || (cols.exam && h.exam > 0.0) || (cols.reunion && h.reunion > 0.0) || (cols.other && h.other > 0.0)
  }

  /** Subject entries as rows, in the order the subjects first got hours. */
  function RowsOf(subjects: Table<Stats>): (r: seq<Row>)
    requires Valid(subjects)
    ensures |r| == |subjects.keys|
    ensures forall i :: 0 <= i < |r| ==> r[i] == Row(subjects.keys[i], subjects.at[subjects.keys[i]], FilteredTotal(subjects.at[subjects.keys[i]]))
  {
    seq(|subjects.keys|, i requires 0 <= i < |subjects.keys| =>
      Row(subjects.keys[i], subjects.at[subjects.keys[i]], FilteredTotal(subjects.at[subjects.keys[i]])))
  }

  function SumFiltered(rows: seq<Row>): real {
    if rows == [] then 0.0 else SumFiltered(rows[..|rows| - 1]) + rows[|rows| - 1].filteredTotal
  }

  function SumHours(rows: seq<Row>): Hours {
    if rows == [] then NoHours
    else
      var h := SumHours(rows[..|rows| - 1]);
      var x := rows[|rows| - 1].stats.hours;
      Hours(h.cm + x.cm, h.td + x.td, h.tp + x.tp, h.project + x.project, h.reunion + x.reunion,
            h.exam + x.exam, h.other + x.other)
  }

  function RowLe(): (Row, Row) -> bool {
    (a: Row, b: Row) => a.filteredTotal >= b.filteredTotal
  }

  lemma RowLeTotalPreorder()
    ensures TotalPreorder(RowLe())
  {
  }

  /** A teacher's section: shown rows by decreasing filtered total, and totals over all rows. */
  datatype Section = Section(name: string, rows: seq<Row>, grandTotal: real, totalsAll: Hours)

  function ShownTest(cols: Columns): Row -> bool {
    (row: Row) => RowShown(row, cols)
  }

  function SectionOf(name: string, subjects: Table<Stats>, cols: Columns): (r: Section)
    requires Valid(subjects)
    ensures r.name == name && SortedBy(r.rows, RowLe())
    ensures multiset(r.rows) == multiset(Filter(RowsOf(subjects), ShownTest(cols)))
    ensures forall row :: row in r.rows <==> row in RowsOf(subjects) && RowShown(row, cols)
    ensures r.grandTotal == SumFiltered(RowsOf(subjects)) && r.totalsAll == SumHours(RowsOf(subjects))
  {
    var all := RowsOf(subjects);
    RowLeTotalPreorder();
    SortFilterMembers(all, ShownTest(cols), RowLe());
    Section(name, SortBy(Filter(all, ShownTest(cols)), RowLe()), SumFiltered(all), SumHours(all))
  }

  /**
   * The section order key: with a selection, the selected teacher's section
   * ranks first, then the unknown label's, then the rest; without one all
   * rank alike.  Within a rank, larger grand totals come first.
   */
  function Rank(s: Section, v: Viewer): nat {
    if v.selected == [] then 0
    else (if Lower(s.name) == Lower(v.selected) then 0 else 2) + (if s.name == UnknownLabel(v) then 0 else 1)
  }

  function SectionLe(v: Viewer): (Section, Section) -> bool {
    (a: Section, b: Section) =>
      Rank(a, v) < Rank(b, v) || (Rank(a, v) == Rank(b, v) && a.grandTotal >= b.grandTotal)
  }

  lemma SectionLeTotalPreorder(v: Viewer)
    ensures TotalPreorder(SectionLe(v))
  {
  }

  function HasRows(): Section -> bool {
    (s: Section) => s.rows != []
  }

  /**
   * One section per teacher, in the order the teachers first got hours: no
   * two the same, each the section of the teacher it is named after.
   */
  function SectionsOf(teachers: Table<Table<Stats>>, cols: Columns): (r: seq<Section>)
    requires Valid(teachers) && forall n :: n in teachers.at ==> Valid(teachers.at[n])
    ensures |r| == |teachers.keys|
    ensures forall i :: 0 <= i < |r| ==> r[i].name == teachers.keys[i]
    ensures NoDup(r)
    ensures forall s :: s in r ==> s.name in teachers.at && s == SectionOf(s.name, teachers.at[s.name], cols)
    ensures forall n :: n in teachers.at ==> SectionOf(n, teachers.at[n], cols) in r
  {
    var r := seq(|teachers.keys|, i requires 0 <= i < |teachers.keys| =>
      SectionOf(teachers.keys[i], teachers.at[teachers.keys[i]], cols));
    assert forall i :: 0 <= i < |teachers.keys| ==> r[i] == SectionOf(teachers.keys[i], teachers.at[teachers.keys[i]], cols);
    assert forall i :: 0 <= i < |r| ==> r[i].name == teachers.keys[i];
    r
  }

  /** Sections that no two of which are equal, each determined by its name, have distinct names. */
  lemma DistinctNames(r: seq<Section>, teachers: Table<Table<Stats>>, cols: Columns)
    requires Valid(teachers) && forall n :: n in teachers.at ==> Valid(teachers.at[n])
    requires NoDup(r)
    requires forall s :: s in r ==> s.name in teachers.at && s == SectionOf(s.name, teachers.at[s.name], cols)
    ensures forall i, j :: 0 <= i < j < |r| ==> r[i].name != r[j].name
  {
    forall i, j | 0 <= i < j < |r| ensures r[i].name != r[j].name {
      assert r[i] in r && r[j] in r;
    }
  }

  /** Drop the sections without a shown row, then put the rest in section order. */
  function OrderSections(all: seq<Section>, v: Viewer): (r: seq<Section>)
    ensures SortedBy(r, SectionLe(v))
    ensures multiset(r) == multiset(Filter(all, HasRows()))
    ensures forall s :: s in r <==> s in all && s.rows != []
  {
    SectionLeTotalPreorder(v);
    SortFilterMembers(all, HasRows(), SectionLe(v));
    SortBy(Filter(all, HasRows()), SectionLe(v))
  }

  /**
   * The sections of `teacherStats`: exactly one per teacher with a shown row,
   * each that teacher's section, in section order.
   */
  function Sections(teachers: Table<Table<Stats>>, cols: Columns, v: Viewer): (r: seq<Section>)
    requires Valid(teachers) && forall n :: n in teachers.at ==> Valid(teachers.at[n])
    ensures SortedBy(r, SectionLe(v))
    ensures forall s :: s in r ==> s.rows != [] && s.name in teachers.at && s == SectionOf(s.name, teachers.at[s.name], cols)
    ensures forall n :: n in teachers.at && SectionOf(n, teachers.at[n], cols).rows != [] ==>
      SectionOf(n, teachers.at[n], cols) in r
    ensures forall i, j :: 0 <= i < j < |r| ==> r[i].name != r[j].name
  {
    var all := SectionsOf(teachers, cols);
    var r := OrderSections(all, v);
    FilterNoDup(all, HasRows());
    NoDupPermutation(Filter(all, HasRows()), r);
    DistinctNames(r, teachers, cols);
    r
  }

  /**
   * With a selection, a section of the selected teacher comes before every
   * section of anyone else, and the unknown label's comes before everyone
   * but the selected teacher's.
   */
  lemma SelectedSectionFirst(teachers: Table<Table<Stats>>, cols: Columns, v: Viewer, i: int, j: int)
    requires Valid(teachers) && forall n :: n in teachers.at ==> Valid(teachers.at[n])
    requires v.selected != []
    requires 0 <= i < |Sections(teachers, cols, v)| && 0 <= j < |Sections(teachers, cols, v)|
    ensures var r := Sections(teachers, cols, v);
      && (Lower(r[i].name) == Lower(v.selected) && Lower(r[j].name) != Lower(v.selected) ==> i < j)
      && (r[i].name == "—" && Lower(r[j].name) != Lower(v.selected) && r[j].name != "—" ==> i < j)
  {
    SelectedFirstIn(Sections(teachers, cols, v), v, i, j);
  }

  /** The same order fact for any sequence of sections in section order. */
  lemma SelectedFirstIn(r: seq<Section>, v: Viewer, i: int, j: int)
    requires v.selected != [] && SortedBy(r, SectionLe(v))
    requires 0 <= i < |r| && 0 <= j < |r|
    ensures Lower(r[i].name) == Lower(v.selected) && Lower(r[j].name) != Lower(v.selected) ==> i < j
    ensures r[i].name == "—" && Lower(r[j].name) != Lower(v.selected) && r[j].name != "—" ==> i < j
  {
    if j <= i && i != j {
      assert SectionLe(v)(r[j], r[i]);
    }
  }

  /**
   * `teacherStats`: the per-teacher tables accumulated over the events, then
   * the sections with a shown row, in section order.
   */
  method TeacherStats(events: seq<Enriched>, cols: Columns, v: Viewer)
    returns (teachers: Table<Table<Stats>>, sections: seq<Section>)
    ensures Accumulated(teachers, AllCredits(events, v))
    ensures Valid(teachers) && forall n :: n in teachers.at ==> Valid(teachers.at[n])
    ensures sections == Sections(teachers, cols, v)
  {
    teachers := TeacherTables(events, v);
    AccumulatedValid(teachers, AllCredits(events, v));
    sections := Sections(teachers, cols, v);
  }

  /** Tables that agree with some credits are well formed. */
  lemma AccumulatedValid(teachers: Table<Table<Stats>>, cs: seq<Credit>)
    requires Accumulated(teachers, cs)
    ensures Valid(teachers) && forall n :: n in teachers.at ==> Valid(teachers.at[n])
  {
    forall n | n in teachers.at ensures Valid(teachers.at[n]) {
      assert TeacherAgrees(teachers, cs, n);
      forall s ensures s in teachers.at[n].at <==> s in teachers.at[n].keys {
        assert SubjectAgrees(teachers.at[n], cs, n, s);
      }
    }
    forall n ensures n in teachers.at <==> n in teachers.keys {
      assert TeacherAgrees(teachers, cs, n);
    }
  }
}
