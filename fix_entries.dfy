/**
 * The "fix" screen: the distinct teacher, promo and subject names found in
 * the events, each with how often it occurs and the first contexts it was
 * seen in; the search over them; the suggested replacement of a name; and
 * the rule edits the screen makes.
 */
module FixScreen {
  import opened Base
  import opened Lists
  import opened Text
  import opened FrontendTypes
  import opened OrderedMaps
  import RuleEdits

  // ---------------------------------------------------------------- entries

  /** `Entry`: a name, how many times it was seen, and up to three contexts. */
  datatype Entry = Entry(value: string, count: nat, examples: seq<string>)

  /** One call of `add`: a raw name and the context it was seen in. */
  datatype Sighting = Sighting(raw: string, example: string)

  const MaxExamples := 3

  /**
   * `add` keys a name by its trimmed form; the proofs below only need that
   * the key is some function of the sighting, so they take it as `key`.
   */
  function TrimKey(): Sighting -> string {
    (s: Sighting) => Trim(JsSpace, s.raw)
  }

  /** The keys of the sightings that are not blank, in order. */
  function KeysOf(ss: seq<Sighting>, key: Sighting -> string): (r: seq<string>)
    ensures forall k :: k in r ==> k != []
  {
    if ss == [] then []
    else
      var k := key(ss[|ss| - 1]);
      KeysOf(ss[..|ss| - 1], key) + (if k == [] then [] else [k])
  }

  /** Every key `add` stores is a trimmed, non-blank name. */
  lemma {:induction false} KeysTrimmed(ss: seq<Sighting>)
    ensures forall k :: k in KeysOf(ss, TrimKey()) ==> k != [] && IsTrimmed(JsSpace, k)
  {
    if ss != [] {
      KeysTrimmed(ss[..|ss| - 1]);
    }
  }

  /** The contexts of the sightings of key `k`, in order. */
  function ExamplesOf(ss: seq<Sighting>, k: string, key: Sighting -> string): seq<string> {
    if ss == [] then []
    else
      var last := ss[|ss| - 1];
      ExamplesOf(ss[..|ss| - 1], k, key) + (if key(last) == k && k != [] then [last.example] else [])
  }

  /** The first (at most three) elements. */
  function FirstFew(s: seq<string>): (r: seq<string>)
    ensures |r| <= MaxExamples && r <= s
    ensures |s| <= MaxExamples ==> r == s
  {
    if |s| <= MaxExamples then s else s[..MaxExamples]
  }

  /** The entry of key `k` after the sightings `ss`. */
  function EntryOf(ss: seq<Sighting>, k: string, key: Sighting -> string): (e: Entry)
    ensures e.value == k && |e.examples| <= MaxExamples
  {
    Entry(k, Count(KeysOf(ss, key), k), FirstFew(ExamplesOf(ss, k, key)))
  }

  /** The map holds an entry for every non-blank key seen, in order of first sighting. */
  ghost predicate EntriesAs(m: Table<Entry>, ss: seq<Sighting>, key: Sighting -> string) {
    m.keys == Dedup(KeysOf(ss, key)) && forall k :: KeyAgrees(m, ss, key, k)
  }

  ghost predicate KeyAgrees(m: Table<Entry>, ss: seq<Sighting>, key: Sighting -> string, k: string) {
    (k in m.at <==> k in KeysOf(ss, key)) && (k in m.at ==> m.at[k] == EntryOf(ss, k, key))
  }

  lemma {:induction false} ExamplesAbsent(ss: seq<Sighting>, k: string, key: Sighting -> string)
    requires k !in KeysOf(ss, key)
    ensures ExamplesOf(ss, k, key) == []
  {
    if ss != [] {
      ExamplesAbsent(ss[..|ss| - 1], k, key);
    }
  }

  /** A further context is kept only while fewer than three are. */
  lemma FirstFewSnoc(s: seq<string>, x: string)
    ensures FirstFew(s + [x]) == if |FirstFew(s)| < MaxExamples then FirstFew(s) + [x] else FirstFew(s)
  {
    if |s| >= MaxExamples {
      assert (s + [x])[..MaxExamples] == s[..MaxExamples];
    }
  }

  /** One more sighting changes the keys by its own key at most, and no other key's entry. */
  lemma EntrySnoc(ss: seq<Sighting>, s: Sighting, key: Sighting -> string, n: string)
    ensures KeysOf(ss + [s], key) == KeysOf(ss, key) + (if key(s) == [] then [] else [key(s)])
    ensures n != key(s) || n == [] ==> EntryOf(ss + [s], n, key) == EntryOf(ss, n, key)
  {
    assert (ss + [s])[..|ss|] == ss;
    var ks := KeysOf(ss, key);
    assert ks + [] == ks;
    var ex := ExamplesOf(ss, n, key);
    assert ex + [] == ex;
  }

  /** `entry.count += 1`, and the context pushed while fewer than three are kept. */
  function Bumped(entry: Entry, example: string): Entry {
    Entry(entry.value, entry.count + 1,
          if |entry.examples| < MaxExamples then entry.examples + [example] else entry.examples)
  }

  /** A sighting of key `k` counts once more and adds its context while there is room. */
  lemma EntryOwn(ss: seq<Sighting>, s: Sighting, key: Sighting -> string, entry: Entry)
    requires key(s) != []
    requires entry == EntryOf(ss, key(s), key)
    ensures EntryOf(ss + [s], key(s), key) == Bumped(entry, s.example)
  {
    var k := key(s);
    assert (ss + [s])[..|ss|] == ss;
    assert KeysOf(ss + [s], key) == KeysOf(ss, key) + [k];
    assert ExamplesOf(ss + [s], k, key) == ExamplesOf(ss, k, key) + [s.example];
    FirstFewSnoc(ExamplesOf(ss, k, key), s.example);
  }

  /** A blank name leaves the map as it was. */
  lemma AddBlank(m: Table<Entry>, s: Sighting, key: Sighting -> string, ss: seq<Sighting>)
    requires EntriesAs(m, ss, key) && key(s) == []
    ensures EntriesAs(m, ss + [s], key)
  {
    EntrySnoc(ss, s, key, []);
    assert KeysOf(ss, key) + [] == KeysOf(ss, key);
    forall n ensures KeyAgrees(m, ss + [s], key, n) {
      assert KeyAgrees(m, ss, key, n);
      EntrySnoc(ss, s, key, n);
    }
  }

  /** The entry found under `k`, or the empty one `add` creates, is the entry of `k` so far. */
  lemma StoredEntry(m: Table<Entry>, ss: seq<Sighting>, key: Sighting -> string, k: string)
    requires EntriesAs(m, ss, key) && k != []
    ensures (if k in m.at then m.at[k] else Entry(k, 0, [])) == EntryOf(ss, k, key)
  {
    assert KeyAgrees(m, ss, key, k);
    if k !in m.at {
      assert Count(KeysOf(ss, key), k) == 0;
      ExamplesAbsent(ss, k, key);
    }
  }

  /** Storing the new entry of a non-blank key keeps the map in step with the sightings. */
  lemma PutAgrees(m: Table<Entry>, ss: seq<Sighting>, s: Sighting, key: Sighting -> string, v: Entry)
    requires EntriesAs(m, ss, key) && key(s) != []
    requires v == EntryOf(ss + [s], key(s), key)
    ensures EntriesAs(Put(m, key(s), v), ss + [s], key)
  {
    var k := key(s);
    var r := Put(m, k, v);
    EntrySnoc(ss, s, key, k);
    DedupSnoc(KeysOf(ss, key), k);
    assert KeyAgrees(m, ss, key, k);
    forall n ensures KeyAgrees(r, ss + [s], key, n) {
      assert KeyAgrees(m, ss, key, n);
      EntrySnoc(ss, s, key, n);
    }
  }

  /** A non-blank name bumps its entry, which is created empty on first sight. */
  lemma AddPut(m: Table<Entry>, s: Sighting, key: Sighting -> string, ss: seq<Sighting>, entry: Entry)
    requires EntriesAs(m, ss, key) && key(s) != []
    requires entry == if key(s) in m.at then m.at[key(s)] else Entry(key(s), 0, [])
    ensures EntriesAs(Put(m, key(s), Bumped(entry, s.example)), ss + [s], key)
  {
    StoredEntry(m, ss, key, key(s));
    EntryOwn(ss, s, key, entry);
    PutAgrees(m, ss, s, key, Bumped(entry, s.example));
  }

  /** `add(map, raw, example)`, with `key` the trimming of the raw name. */
  method Add(m: Table<Entry>, s: Sighting, key: Sighting -> string, ghost ss: seq<Sighting>) returns (r: Table<Entry>)
    requires EntriesAs(m, ss, key)
    ensures EntriesAs(r, ss + [s], key)
  {
    var k := key(s);
    if k == [] {
      AddBlank(m, s, key, ss);
      return m;
    }
    var entry := if k in m.at then m.at[k] else Entry(k, 0, []);
    AddPut(m, s, key, ss, entry);
    r := Put(m, k, Bumped(entry, s.example));
  }

  /** A run of `add` calls, in order. */
  method AddAll(m: Table<Entry>, own: seq<Sighting>, key: Sighting -> string, ghost before: seq<Sighting>)
    returns (r: Table<Entry>)
    requires EntriesAs(m, before, key)
    ensures EntriesAs(r, before + own, key)
  {
    r := m;
    assert before + own[..0] == before;
    for j := 0 to |own|
      invariant EntriesAs(r, before + own[..j], key)
    {
      r := Add(r, own[j], key, before + own[..j]);
      PrefixSnoc(before, own, j);
    }
    assert own[..|own|] == own;
  }

  // ---------------------------------------------------------------- what each event contributes

  /** Each teacher named by the event, with the event's subject as context. */
  function TeacherSightings(ev: Enriched): (r: seq<Sighting>)
    ensures |r| == |CommaItems(ev.extractedTeacher)|
    ensures forall i :: 0 <= i < |r| ==> r[i] == Sighting(CommaItems(ev.extractedTeacher)[i], ev.subject)
  {
    var names := CommaItems(ev.extractedTeacher);
    seq(|names|, i requires 0 <= i < |names| => Sighting(names[i], ev.subject))
  }

  /** The whole promo string, when there is one, with the subject as context. */
  function PromoSightings(ev: Enriched): seq<Sighting> {
    if ev.promo != [] then [Sighting(ev.promo, ev.subject)] else []
  }

  /** `promoStr || teacherStr || ''`: the context shown for a subject. */
  function SubjectContext(ev: Enriched): string {
    if ev.promo != [] then ev.promo else ev.extractedTeacher
  }

  function SubjectSightings(ev: Enriched): seq<Sighting> {
    if ev.subject != [] then [Sighting(ev.subject, SubjectContext(ev))] else []
  }

  function TeacherSightingsOf(): Enriched -> seq<Sighting> { (ev: Enriched) => TeacherSightings(ev) }
  function PromoSightingsOf(): Enriched -> seq<Sighting> { (ev: Enriched) => PromoSightings(ev) }
  function SubjectSightingsOf(): Enriched -> seq<Sighting> { (ev: Enriched) => SubjectSightings(ev) }

  // ---------------------------------------------------------------- sorting and the three lists

  /** `b.count - a.count || a.value.localeCompare(b.value)`, as "less or equal". */
  function EntryLe(): (Entry, Entry) -> bool {
    (a: Entry, b: Entry) => a.count > b.count || (a.count == b.count && StrLe(a.value, b.value))
  }

  lemma EntryLeTotalPreorder()
    ensures TotalPreorder(EntryLe())
  {
    forall a: Entry, b: Entry ensures EntryLe()(a, b) || EntryLe()(b, a) {
      StrLeTotal(a.value, b.value);
    }
    forall a: Entry, b: Entry, c: Entry | EntryLe()(a, b) && EntryLe()(b, c) ensures EntryLe()(a, c) {
      if a.count == b.count == c.count {
        StrLeTrans(a.value, b.value, c.value);
      }
    }
  }

  /** The map `add` builds from the sightings `ss`. */
  function MapOf(ss: seq<Sighting>, key: Sighting -> string): (m: Table<Entry>) {
    Table(Dedup(KeysOf(ss, key)), map k | k in KeysOf(ss, key) :: EntryOf(ss, k, key))
  }

  /** A map that agrees with the sightings is the map they build. */
  lemma EntriesAsMapOf(m: Table<Entry>, ss: seq<Sighting>, key: Sighting -> string)
    requires EntriesAs(m, ss, key)
    ensures m == MapOf(ss, key)
  {
    forall k ensures k in m.at <==> k in MapOf(ss, key).at {
      assert KeyAgrees(m, ss, key, k);
    }
    forall k | k in m.at ensures m.at[k] == MapOf(ss, key).at[k] {
      assert KeyAgrees(m, ss, key, k);
    }
  }

  /** The map the sightings build is a valid one: each key listed once. */
  lemma MapOfValid(ss: seq<Sighting>, key: Sighting -> string)
    ensures Valid(MapOf(ss, key))
  {
  }

  /** `toArray`: the entries by decreasing count, equal counts by name. */
  function ToArray(ss: seq<Sighting>, key: Sighting -> string): (r: seq<Entry>)
    ensures SortedBy(r, EntryLe())
  {
    MapOfValid(ss, key);
    EntryLeTotalPreorder();
    SortBy(Values(MapOf(ss, key)), EntryLe())
  }

  /** The values of the built map are the entries of its keys, in key order. */
  lemma ValuesOfMap(ss: seq<Sighting>, key: Sighting -> string)
    ensures Valid(MapOf(ss, key))
    ensures var vs := Values(MapOf(ss, key));
      (forall e :: e in vs <==> e.value in KeysOf(ss, key) && e == EntryOf(ss, e.value, key)) &&
      (forall i, j :: 0 <= i < j < |vs| ==> vs[i].value != vs[j].value)
  {
    MapOfValid(ss, key);
    var m := MapOf(ss, key);
    var vs := Values(m);
    forall i | 0 <= i < |vs| ensures vs[i] == EntryOf(ss, m.keys[i], key) && vs[i].value == m.keys[i] {
    }
    forall e ensures e in vs <==> e.value in KeysOf(ss, key) && e == EntryOf(ss, e.value, key) {
      if e.value in KeysOf(ss, key) && e == EntryOf(ss, e.value, key) {
        var i :| 0 <= i < |m.keys| && m.keys[i] == e.value;
        assert vs[i] == e;
      }
    }
  }

  /**
   * The entries of a finished map: every non-blank key sighted, once, with
   * its count and first contexts, by decreasing count and then by name.
   */
  lemma ToArrayEntries(ss: seq<Sighting>, key: Sighting -> string)
    ensures forall e :: e in ToArray(ss, key) <==> e.value in KeysOf(ss, key) && e == EntryOf(ss, e.value, key)
    ensures forall i, j :: 0 <= i < j < |ToArray(ss, key)| ==> ToArray(ss, key)[i].value != ToArray(ss, key)[j].value
  {
    ValuesOfMap(ss, key);
    Permuted(Values(MapOf(ss, key)), ToArray(ss, key), (e: Entry) => e.value in KeysOf(ss, key) && e == EntryOf(ss, e.value, key));
  }

  /** Reordering entries keeps which entries there are, and that their names are distinct. */
  lemma Permuted(vs: seq<Entry>, r: seq<Entry>, p: Entry -> bool)
    requires multiset(vs) == multiset(r)
    requires forall e :: e in vs <==> p(e)
    requires forall i, j :: 0 <= i < j < |vs| ==> vs[i].value != vs[j].value
    ensures forall e :: e in r <==> p(e)
    ensures forall i, j :: 0 <= i < j < |r| ==> r[i].value != r[j].value
  {
    SameMembers(vs, r);
    var value := (e: Entry) => e.value;
    assert forall i, j :: 0 <= i < j < |vs| ==> value(vs[i]) != value(vs[j]);
    KeyedPermutation(vs, r, value);
  }

  /** The three lists of the screen. */
  datatype Data = Data(teachers: seq<Entry>, promos: seq<Entry>, subjects: seq<Entry>)

  /** The sightings of event `i` added to a map that holds those of the events before it. */
  method AddEvent(m: Table<Entry>, events: seq<Enriched>, i: nat, f: Enriched -> seq<Sighting>, key: Sighting -> string)
    returns (r: Table<Entry>)
    requires i < |events|
    requires EntriesAs(m, FlatMap(events[..i], f), key)
    ensures EntriesAs(r, FlatMap(events[..i + 1], f), key)
  {
    assert events[..i + 1][..i] == events[..i];
    r := AddAll(m, f(events[i]), key, FlatMap(events[..i], f));
  }

  /** A finished map, sorted: the list `toArray` returns for its sightings. */
  method Sorted(m: Table<Entry>, ghost ss: seq<Sighting>, key: Sighting -> string) returns (r: seq<Entry>)
    requires EntriesAs(m, ss, key)
    ensures r == ToArray(ss, key)
  {
    EntriesAsMapOf(m, ss, key);
    MapOfValid(ss, key);
    EntryLeTotalPreorder();
    r := SortBy(Values(m), EntryLe());
  }

  /** `data`: one pass over the events filling the three maps, then each map sorted. */
  method Collect(events: seq<Enriched>) returns (d: Data)
    ensures d.teachers == ToArray(FlatMap(events, TeacherSightingsOf()), TrimKey())
    ensures d.promos == ToArray(FlatMap(events, PromoSightingsOf()), TrimKey())
    ensures d.subjects == ToArray(FlatMap(events, SubjectSightingsOf()), TrimKey())
  {
    var teachers: Table<Entry> := Empty();
    var promos: Table<Entry> := Empty();
    var subjects: Table<Entry> := Empty();
    var key := TrimKey();
    assert EntriesAs(teachers, [], key);
    for i := 0 to |events|
      invariant EntriesAs(teachers, FlatMap(events[..i], TeacherSightingsOf()), key)
      invariant EntriesAs(promos, FlatMap(events[..i], PromoSightingsOf()), key)
      invariant EntriesAs(subjects, FlatMap(events[..i], SubjectSightingsOf()), key)
    {
      teachers := AddEvent(teachers, events, i, TeacherSightingsOf(), key);
      promos := AddEvent(promos, events, i, PromoSightingsOf(), key);
      subjects := AddEvent(subjects, events, i, SubjectSightingsOf(), key);
    }
    assert events[..|events|] == events;
    var t := Sorted(teachers, FlatMap(events, TeacherSightingsOf()), key);
    var p := Sorted(promos, FlatMap(events, PromoSightingsOf()), key);
    var s := Sorted(subjects, FlatMap(events, SubjectSightingsOf()), key);
    d := Data(t, p, s);
  }

  // ---------------------------------------------------------------- search and selection

  /** `list.some(ex => ex.toLowerCase().includes(term))`. */
  predicate AnyContains(list: seq<string>, term: string) {
    exists i :: 0 <= i < |list| && Contains(Lower(list[i]), term)
  }

  /** The entry's name or one of its contexts contains the lower-cased `term`. */
  function Matches(term: string): Entry -> bool {
    (e: Entry) => Contains(Lower(e.value), term) || AnyContains(e.examples, term)
  }

  /** `filtered`: the search term trimmed and lower-cased; a blank term keeps every entry. */
  function Filtered(current: seq<Entry>, search: string): (r: seq<Entry>) {
    var term := Lower(Trim(JsSpace, search));
    if term == [] then current else Filter(current, Matches(term))
  }

  /**
   * The search keeps exactly the entries whose name or a context contains the
   * term, in their order, so the screen's sorted list stays sorted.
   */
  lemma FilteredEntries(current: seq<Entry>, search: string)
    ensures var term := Lower(Trim(JsSpace, search));
      forall e :: e in Filtered(current, search) <==>
        e in current && (term == [] || Contains(Lower(e.value), term) || AnyContains(e.examples, term))
    ensures Trim(JsSpace, search) == [] ==> Filtered(current, search) == current
    ensures |Filtered(current, search)| <= |current|
    ensures SortedBy(current, EntryLe()) ==> SortedBy(Filtered(current, search), EntryLe())
  {
    var term := Lower(Trim(JsSpace, search));
    if term != [] {
      if SortedBy(current, EntryLe()) {
        FilterSorted(current, Matches(term), EntryLe());
      }
    }
  }

  /**
   * The effect on `selectedKey`: cleared when nothing is listed, kept when
   * still listed, and otherwise moved to the first listed entry.
   */
  function SelectedKey(filtered: seq<Entry>, selectedKey: string): (r: string)
    ensures filtered == [] ==> r == []
    ensures filtered != [] ==> exists i :: 0 <= i < |filtered| && filtered[i].value == r
    ensures (exists i :: 0 <= i < |filtered| && filtered[i].value == selectedKey) ==> r == selectedKey
  {
    if filtered == [] then []
    else if exists i :: 0 <= i < |filtered| && filtered[i].value == selectedKey then selectedKey
    else filtered[0].value
  }

  /** `filtered.find(e => e.value === key) || null`: the first entry of that name. */
  function FindEntry(filtered: seq<Entry>, key: string): (r: Option<Entry>)
    ensures r.None? <==> forall i :: 0 <= i < |filtered| ==> filtered[i].value != key
    ensures r.Some? ==> (r.value.value == key &&
      exists i :: 0 <= i < |filtered| && filtered[i] == r.value &&
        forall j :: 0 <= j < i ==> filtered[j].value != key)
  {
    if filtered == [] then None
    else if filtered[0].value == key then Some(filtered[0])
    else
      var rest := FindEntry(filtered[1..], key);
      assert forall i :: 0 < i < |filtered| ==> filtered[i] == filtered[1..][i - 1];
      rest
  }

  /** After the effect has run, a selected entry is shown whenever the list is not empty. */
  lemma SelectionShown(filtered: seq<Entry>, selectedKey: string)
    ensures FindEntry(filtered, SelectedKey(filtered, selectedKey)).Some? <==> filtered != []
  {
  }

  // ---------------------------------------------------------------- placeholder

  /** `/\s+IDBCI$/i` matches: white space, then the five letters in either case, at the end. */
  predicate EndsWithIdbci(val: string) {
    |val| >= 6 && IsSpace(JsSpace, val[|val| - 6]) && Lower(val[|val| - 5..]) == "idbci"
  }

  /**
   * `placeholderFor`: for a teacher, the last two space-separated parts; for a
   * subject, the name without a trailing " IDBCI", trimmed; otherwise nothing.
   * The regular expression removes the whole run of white space before the
   * letters, and dropping only the letters before trimming gives the same text.
   */
  function PlaceholderFor(tab: Category, val: string): (r: string) {
    match tab
    case Teachers =>
      var parts := SplitOn(val, ' ');
      if |parts| >= 2 then Join(parts[|parts| - 2..], " ") else ""
    case Subjects =>
      if EndsWithIdbci(val) then Trim(JsSpace, val[..|val| - 5]) else Trim(JsSpace, val)
    case Promos => ""
  }

  /**
   * A teacher name of two or more parts suggests its last two parts: a suffix
   * of the name that splits into exactly those two parts.
   */
  lemma TeacherPlaceholder(val: string)
    requires |SplitOn(val, ' ')| >= 2
    ensures var parts := SplitOn(val, ' ');
      var r := PlaceholderFor(Teachers, val);
      EndsWith(val, r) && SplitOn(r, ' ') == parts[|parts| - 2..]
  {
    var parts := SplitOn(val, ' ');
    var n := |parts|;
    var last := parts[n - 2..];
    var r := Join(last, " ");
    SplitJoin(last, ' ');
    JoinSplit(val, ' ');
    if n > 2 {
      assert parts == parts[..n - 2] + last;
      JoinAppend(parts[..n - 2], last, " ");
    } else {
      assert parts == last;
    }
  }

  /** A single-word teacher name suggests nothing. */
  lemma TeacherPlaceholderOneWord(val: string)
    requires ' ' !in val
    ensures PlaceholderFor(Teachers, val) == ""
  {
    SplitOnFree(val, ' ');
  }

  /** A subject ending in white space and "IDBCI" (any case) suggests the trimmed name before it. */
  lemma SubjectPlaceholder(base: string, c: char, suffix: string)
    requires IsSpace(JsSpace, c) && Lower(suffix) == "idbci"
    ensures PlaceholderFor(Subjects, base + [c] + suffix) == Trim(JsSpace, base)
  {
    var val := base + [c] + suffix;
    assert val[|val| - 6] == c && val[|val| - 5..] == suffix;
    assert val[..|val| - 5] == base + [c];
    TrimTrailing(JsSpace, base, c);
  }

  /** Any other subject suggests its trimmed self; the suggestion is always trimmed. */
  lemma SubjectPlaceholderPlain(val: string)
    ensures !EndsWithIdbci(val) ==> PlaceholderFor(Subjects, val) == Trim(JsSpace, val)
    ensures IsTrimmed(JsSpace, PlaceholderFor(Subjects, val))
  {
  }

  // ---------------------------------------------------------------- rule edits

  /**
   * `toOverride ?? drafts[from] ?? rules[tab][from] ?? ''`: the first of the
   * three that is present.
   */
  function Proposed(from: string, toOverride: Option<string>, drafts: map<string, string>,
                    mapping: map<string, string>): string
  {
    if toOverride.Some? then toOverride.value
    else if from in drafts then drafts[from]
    else if from in mapping then mapping[from]
    else ""
  }

  /**
   * `apply`: the proposed name, trimmed, falling back to `from` when blank;
   * the target `onUpdateRules` is called with, or `None` when it is `from`.
   */
  function Apply(from: string, toOverride: Option<string>, drafts: map<string, string>,
                 mapping: map<string, string>): (r: Option<string>)
    ensures r.Some? ==> r.value != from && r.value != [] && IsTrimmed(JsSpace, r.value)
  {
    var trimmed := Trim(JsSpace, Proposed(from, toOverride, drafts, mapping));
    var to := if trimmed == [] then from else trimmed;
    if to == from then None else Some(to)
  }

  /**
   * A rule is emitted exactly when the trimmed proposal is neither blank nor
   * `from`, and it is that trimmed proposal.
   */
  lemma ApplyEmits(from: string, toOverride: Option<string>, drafts: map<string, string>,
                   mapping: map<string, string>)
    ensures var p := Trim(JsSpace, Proposed(from, toOverride, drafts, mapping));
      Apply(from, toOverride, drafts, mapping) == if p == [] || p == from then None else Some(p)
  {
  }

  /** With a non-blank trimmed override, `apply` targets the override whatever the drafts and rules say. */
  lemma ApplyOverride(from: string, target: string, drafts: map<string, string>, mapping: map<string, string>)
    requires target != [] && IsTrimmed(JsSpace, target)
    ensures Apply(from, Some(target), drafts, mapping) == if target == from then None else Some(target)
  {
    TrimTrimmed(JsSpace, target);
  }

  /** `toggleSelected`: flips the flag of `val`, a missing flag counting as unset. */
  function ToggleSelected(selected: Table<bool>, val: string): (r: Table<bool>)
    ensures val in r.at && r.at[val] == !(val in selected.at && selected.at[val])
    ensures forall k :: k != val ==> (k in r.at <==> k in selected.at) && (k in selected.at ==> r.at[k] == selected.at[k])
  {
    Put(selected, val, !(val in selected.at && selected.at[val]))
  }

  /** `Object.entries(selected).filter(([, v]) => v).map(([k]) => k)`. */
  function Picks(selected: Table<bool>): (r: seq<string>)
    ensures forall k :: k in r <==> k in selected.keys && k in selected.at && selected.at[k]
  {
    Filter(selected.keys, (k: string) => k in selected.at && selected.at[k])
  }

  /**
   * After the picks `done` have been merged into `target`: each of them
   * other than the target maps to it, every other rule is as before, and
   * nothing else changed.
   */
  ghost predicate MergedInto(newRules: Rules, rules: Rules, tab: Category, done: seq<string>, target: string) {
    && newRules.hidden == rules.hidden
    && (forall c :: c != tab ==> MappingOf(newRules, c) == MappingOf(rules, c))
    && (forall k :: k in MappingOf(newRules, tab) <==>
          k in MappingOf(rules, tab) || (k in done && k != target))
    && (forall k :: k in done && k != target ==> MappingOf(newRules, tab)[k] == target)
    && (forall k :: k !in done && k in MappingOf(rules, tab) ==>
          MappingOf(newRules, tab)[k] == MappingOf(rules, tab)[k])
  }

  /** Merging one more pick: a rule to the target unless the pick is the target itself. */
  lemma MergeStep(newRules: Rules, rules: Rules, tab: Category, done: seq<string>, p: string, target: string)
    requires MergedInto(newRules, rules, tab, done, target)
    ensures MergedInto(if p == target then newRules else RuleEdits.UpdateRule(newRules, tab, p, target),
                       rules, tab, done + [p], target)
  {
  }

  /**
   * `mergeSelected`: a blank target does nothing; otherwise every picked
   * name other than the target is mapped to the target, in turn, and the
   * selection is cleared.
   */
  method MergeSelected(tab: Category, mergeTarget: string, selected: Table<bool>,
                       drafts: map<string, string>, rules: Rules)
    returns (newRules: Rules, newSelected: Table<bool>)
    ensures var target := Trim(JsSpace, mergeTarget);
      target == [] ==> newRules == rules && newSelected == selected
    ensures var target := Trim(JsSpace, mergeTarget);
      target != [] ==> newSelected == Empty() && MergedInto(newRules, rules, tab, Picks(selected), target)
  {
    var target := Trim(JsSpace, mergeTarget);
    if target == [] {
      return rules, selected;
    }
    var picks := Picks(selected);
    newRules := rules;
    for j := 0 to |picks|
      invariant MergedInto(newRules, rules, tab, picks[..j], target)
    {
      var p := picks[j];
      ApplyOverride(p, target, drafts, MappingOf(rules, tab));
      var to := Apply(p, Some(target), drafts, MappingOf(rules, tab));
      MergeStep(newRules, rules, tab, picks[..j], p, target);
      if to.Some? {
        newRules := RuleEdits.UpdateRule(newRules, tab, p, to.value);
      }
      assert picks[..j + 1] == picks[..j] + [p];
    }
    assert picks[..|picks|] == picks;
    newSelected := Empty();
  }
}
