/**
 * Session numbering (`sessionOrdinals.ts`): the lectures (CM), tutorials (TD)
 * and practicals (TP) of a course are grouped into series, and each distinct
 * occurrence of a series gets an ordinal, counted in chronological order, so
 * that a view can label a session "TD3".
 *
 * `Date.parse` is a parameter `parse` (it yields `None` where JavaScript
 * yields `NaN`); the result map of the source, keyed by event object, is the
 * sorted sequence together with one entry per position.
 */
module SessionOrdinals {
  import opened Base
  import opened Lists
  import opened Text
  import opened FrontendTypes

  // ---------------------------------------------------------------- keys

  /** `normalizeText`: trimmed, lower-cased, and every run of white space one blank. */
  function NormalizeText(v: string): string {
    CollapseSpaces(Lower(Trim(JsSpace, v)))
  }

  /** A normalised text is trimmed, its only white space is single blanks, and it is blank only for a blank input. */
  lemma NormalizeTextFacts(v: string)
    ensures var r := NormalizeText(v);
      && (forall i :: 0 <= i < |r| && IsSpace(JsSpace, r[i]) ==> r[i] == ' ')
      && (forall i :: 0 <= i < |r| - 1 ==> !(r[i] == ' ' && r[i + 1] == ' '))
      && IsTrimmed(JsSpace, r)
      && (r == [] <==> Trim(JsSpace, v) == [])
  {
    var l := Lower(Trim(JsSpace, v));
    assert forall c :: IsSpace(JsSpace, LowerChar(c)) ==> IsSpace(JsSpace, c);
    if l != [] {
      CollapseLast(l);
    }
  }

  /** Normalising a normalised text changes nothing, so normalised keys compare reliably. */
  lemma NormalizeTextIdempotent(v: string)
    ensures NormalizeText(NormalizeText(v)) == NormalizeText(v)
  {
    var n := NormalizeText(v);
    NormalizeTextFacts(v);
    TrimTrimmed(JsSpace, n);
    var l := Lower(Trim(JsSpace, v));
    CollapseChars(l);
    assert forall i :: 0 <= i < |n| ==> LowerChar(n[i]) == n[i] by {
      forall i | 0 <= i < |n| ensures LowerChar(n[i]) == n[i] {
        if n[i] != ' ' {
          var k :| 0 <= k < |l| && l[k] == n[i];
        }
      }
    }
    assert Lower(n) == n;
    CollapseSpacesIdempotent(n);
  }

  /** `values.map(normalizeText)`. */
  function NormalizeEach(values: seq<string>): (r: seq<string>)
    ensures |r| == |values| && forall i :: 0 <= i < |values| ==> r[i] == NormalizeText(values[i])
  {
    seq(|values|, i requires 0 <= i < |values| => NormalizeText(values[i]))
  }

  /** The non-blank normalised entries of the event's promo list. */
  function ListedPromos(e: Enriched): seq<string> {
    Filter(NormalizeEach(e.promos), NonEmpty)
  }

  /** The non-blank normalised pieces of the event's comma-separated promo text. */
  function InlinePromos(e: Enriched): seq<string> {
    Filter(NormalizeEach(SplitOn(e.promo, ',')), NonEmpty)
  }

  /** The tokens in the order the source's `Set` receives them. */
  function PromoCandidates(e: Enriched): seq<string> {
    ListedPromos(e) + InlinePromos(e)
  }

  /** `normalizePromoTokens`: the distinct normalised promo tokens, in code-point order. */
  function PromoTokens(e: Enriched): seq<string> {
    SortedSet(PromoCandidates(e))
  }

  /** `Array.from(new Set(c)).sort()`. */
  function SortedSet(c: seq<string>): seq<string> {
    StrLeTotalPreorder();
    SortBy(Dedup(c), StrLe)
  }

  /** The promo tokens are sorted, distinct and non-blank, and are exactly the normalised promos. */
  lemma PromoTokensFacts(e: Enriched)
    ensures SortedBy(PromoTokens(e), StrLe) && NoDup(PromoTokens(e))
    ensures forall x :: x in PromoTokens(e) <==>
      x != [] && (x in NormalizeEach(e.promos) || x in NormalizeEach(SplitOn(e.promo, ',')))
  {
    SortedSetFacts(PromoCandidates(e));
  }

  /** Sorting the distinct elements of `c` yields each of them once, in order. */
  lemma SortedSetFacts(c: seq<string>)
    ensures var r := SortedSet(c);
      SortedBy(r, StrLe) && NoDup(r) && forall x :: x in r <==> x in c
  {
    StrLeTotalPreorder();
    var d := Dedup(c);
    var r := SortBy(d, StrLe);
    NoDupPermutation(d, r);
    assert forall x :: x in r <==> x in multiset(d);
  }

  /** The promo tokens depend on which promos are given, not on their order or repetition. */
  lemma PromoTokensIgnoreOrder(e1: Enriched, e2: Enriched)
    requires forall p :: p in e1.promos <==> p in e2.promos
    requires e1.promo == e2.promo
    ensures PromoTokens(e1) == PromoTokens(e2)
  {
    SameElementsMapped(e1.promos, e2.promos, NormalizeEach(e1.promos), NormalizeEach(e2.promos), NormalizeText);
    PromoTokensFacts(e1);
    PromoTokensFacts(e2);
    SortedSetsEqual(PromoTokens(e1), PromoTokens(e2));
  }

  /** Two sorted sequences of distinct strings with the same elements are equal. */
  lemma {:induction false} SortedSetsEqual(a: seq<string>, b: seq<string>)
    requires SortedBy(a, StrLe) && SortedBy(b, StrLe) && NoDup(a) && NoDup(b)
    requires forall x :: x in a <==> x in b
    ensures a == b
  {
    if a != [] {
      assert a[0] in a;
      assert b != [] && a[0] in b;
      assert b[0] in b;
      var k :| 0 <= k < |b| && b[k] == a[0];
      var m :| 0 <= m < |a| && a[m] == b[0];
      if k > 0 && m > 0 {
        StrLeAntisym(a[0], b[0]);
      }
      assert a[0] == b[0];
      forall x ensures x in a[1..] <==> x in b[1..] {
        if x in a[1..] {
          var i :| 0 <= i < |a[1..]| && a[1..][i] == x;
          assert a[i + 1] == x && x != a[0];
          assert x in b;
          var j :| 0 <= j < |b| && b[j] == x;
          assert j > 0 && b[1..][j - 1] == x;
        }
        if x in b[1..] {
          var i :| 0 <= i < |b[1..]| && b[1..][i] == x;
          assert b[i + 1] == x && x != b[0];
          assert x in a;
          var j :| 0 <= j < |a| && a[j] == x;
          assert j > 0 && a[1..][j - 1] == x;
        }
      }
      SortedSetsEqual(a[1..], b[1..]);
      assert a == [a[0]] + a[1..] && b == [b[0]] + b[1..];
    }
  }

  /** `normalizePromoTokens`, step by step as the source fills its `Set`. */
  method NormalizePromoTokens(e: Enriched) returns (r: seq<string>)
    ensures r == PromoTokens(e)
  {
    var tokens: seq<string> := [];
    for i := 0 to |e.promos|
      invariant ListedSoFar(tokens, e.promos, i)
    {
      var normalized := NormalizeText(e.promos[i]);
      ListedStep(tokens, e.promos, i);
      if normalized != [] && normalized !in tokens {
        tokens := tokens + [normalized];
      }
    }
    var promoInline := InlinePromos(e);
    ListedAll(tokens, e);
    for j := 0 to |promoInline|
      invariant tokens == Dedup(ListedPromos(e) + promoInline[..j])
    {
      InlineStep(ListedPromos(e), promoInline, j);
      if promoInline[j] !in tokens {
        tokens := tokens + [promoInline[j]];
      }
    }
    assert promoInline[..|promoInline|] == promoInline;
    r := SortedSet(tokens);
    assert Dedup(tokens) == tokens by { DedupNoDup(tokens); }
  }

  /** `tokens` holds the distinct non-blank normalised texts of `promos[..i]`, by first appearance. */
  ghost predicate ListedSoFar(tokens: seq<string>, promos: seq<string>, i: int)
    requires 0 <= i <= |promos|
  {
    tokens == Dedup(Filter(NormalizeEach(promos[..i]), NonEmpty))
  }

  /** One more listed promo joins the tokens when it is neither blank nor already there. */
  lemma ListedStep(tokens: seq<string>, promos: seq<string>, i: int)
    requires 0 <= i < |promos| && ListedSoFar(tokens, promos, i)
    ensures var n := NormalizeText(promos[i]);
      ListedSoFar(if n != [] && n !in tokens then tokens + [n] else tokens, promos, i + 1)
  {
    NormalizeEachSnoc(promos, i);
    KeptStep(tokens, NormalizeEach(promos[..i]), NormalizeText(promos[i]));
  }

  lemma NormalizeEachSnoc(values: seq<string>, i: int)
    requires 0 <= i < |values|
    ensures NormalizeEach(values[..i + 1]) == NormalizeEach(values[..i]) + [NormalizeText(values[i])]
  {
    var a := NormalizeEach(values[..i + 1]);
    var b := NormalizeEach(values[..i]) + [NormalizeText(values[i])];
    assert |a| == |b|;
    forall k | 0 <= k < |a| ensures a[k] == b[k] {
      assert values[..i + 1][k] == values[k];
    }
  }

  /** Adding `n` to the values behind `tokens` adds it to the tokens when it is neither blank nor there yet. */
  lemma KeptStep(tokens: seq<string>, xs: seq<string>, n: string)
    requires tokens == Dedup(Filter(xs, NonEmpty))
    ensures (if n != [] && n !in tokens then tokens + [n] else tokens) == Dedup(Filter(xs + [n], NonEmpty))
  {
    FilterAppend(xs, [n], NonEmpty);
    DedupSnoc(Filter(xs, NonEmpty), n);
    if n == [] {
      assert Filter(xs + [n], NonEmpty) == Filter(xs, NonEmpty) by {
        assert Filter([n], NonEmpty) == [];
      }
    } else {
      assert Filter([n], NonEmpty) == [n];
    }
  }

  lemma ListedAll(tokens: seq<string>, e: Enriched)
    requires ListedSoFar(tokens, e.promos, |e.promos|)
    ensures tokens == Dedup(ListedPromos(e) + InlinePromos(e)[..0])
  {
    assert e.promos[..|e.promos|] == e.promos;
    assert ListedPromos(e) + InlinePromos(e)[..0] == ListedPromos(e);
  }

  lemma InlineStep(listed: seq<string>, inline: seq<string>, j: int)
    requires 0 <= j < |inline|
    ensures Dedup(listed + inline[..j + 1]) ==
      if inline[j] in Dedup(listed + inline[..j]) then Dedup(listed + inline[..j])
      else Dedup(listed + inline[..j]) + [inline[j]]
  {
    assert listed + inline[..j + 1] == (listed + inline[..j]) + [inline[j]];
    DedupSnoc(listed + inline[..j], inline[j]);
  }

  const NoGroup: string := "__nogroup"

  /** `getGroupKey`: the promo tokens joined by `|`, or a fixed marker when there are none. */
  function GroupKey(e: Enriched): string {
    var promos := PromoTokens(e);
    if promos == [] then NoGroup else Join(promos, "|")
  }

  /** An event whose promo fields hold only blanks has no group. */
  lemma BlankPromosNoGroup(e: Enriched)
    requires forall p :: p in e.promos ==> Trim(JsSpace, p) == []
    requires forall q :: q in SplitOn(e.promo, ',') ==> Trim(JsSpace, q) == []
    ensures GroupKey(e) == NoGroup
  {
    BlankNormalized(e.promos);
    BlankNormalized(SplitOn(e.promo, ','));
    FilterNone(NormalizeEach(e.promos), NonEmpty);
    FilterNone(NormalizeEach(SplitOn(e.promo, ',')), NonEmpty);
    assert PromoCandidates(e) == [];
  }

  /** Blank texts normalise to the empty text. */
  lemma BlankNormalized(values: seq<string>)
    requires forall p :: p in values ==> Trim(JsSpace, p) == []
    ensures forall x :: x in NormalizeEach(values) ==> x == []
  {
    forall k | 0 <= k < |values| ensures NormalizeEach(values)[k] == [] {
      assert values[k] in values;
      NormalizeTextFacts(values[k]);
    }
  }

  /** `getTeacherKey`: the normalised extracted teacher, else the sorted normalised teacher list. */
  function TeacherKey(e: Enriched): string {
    if e.extractedTeacher != [] then NormalizeText(e.extractedTeacher)
    else if e.teachers != [] then (StrLeTotalPreorder(); Join(SortBy(NormalizeEach(e.teachers), StrLe), ","))
    else ""
  }

  /** `getSubjectKey`: the normalised subject, falling back to the raw summary. */
  function SubjectKey(e: Enriched): string {
    NormalizeText(if e.subject != [] then e.subject else e.raw.summary)
  }

  /** The three session kinds that are numbered. */
  datatype CoreType = CM | TD | TP

  function TypeName(t: CoreType): (r: string)
    ensures |r| == 2
  {
    match t
    case CM => "CM"
    case TD => "TD"
    case TP => "TP"
  }

  /** `getCoreSessionType`: the first of CM, TD, TP that occurs in the upper-cased course type. */
  function CoreSessionType(rawType: string): Option<CoreType> {
    var upper := Upper(rawType);
    if Contains(upper, "CM") then Some(CM)
    else if Contains(upper, "TD") then Some(TD)
    else if Contains(upper, "TP") then Some(TP)
    else None
  }

  /** CM wins over TD, and TD over TP: each kind is reported exactly when no earlier one occurs. */
  lemma CoreSessionTypeCases(rawType: string)
    ensures var r, upper := CoreSessionType(rawType), Upper(rawType);
      && (r == Some(CM) <==> Contains(upper, "CM"))
      && (r == Some(TD) <==> !Contains(upper, "CM") && Contains(upper, "TD"))
      && (r == Some(TP) <==> !Contains(upper, "CM") && !Contains(upper, "TD") && Contains(upper, "TP"))
      && (r == None <==> !Contains(upper, "CM") && !Contains(upper, "TD") && !Contains(upper, "TP"))
  {
  }

  /** `buildSeriesKey`: subject and kind, and for tutorials and practicals also the group. */
  function SeriesKey(e: Enriched, t: CoreType): string {
    SeriesText(SubjectKey(e), t, GroupKey(e))
  }

  /** The series key laid out from its subject, kind and group keys. */
  function SeriesText(subjectKey: string, t: CoreType, groupKey: string): string {
    if t == TD || t == TP then subjectKey + "|" + TypeName(t) + "|" + groupKey
    else subjectKey + "|" + TypeName(t)
  }

  /** After a common subject, the laid-out key determines the kind and, for TD and TP, the group. */
  lemma SeriesTextSeparates(subjectKey: string, t1: CoreType, t2: CoreType, g1: string, g2: string)
    requires SeriesText(subjectKey, t1, g1) == SeriesText(subjectKey, t2, g2)
    ensures t1 == t2
    ensures t1 != CM ==> g1 == g2
  {
    var p := subjectKey + "|";
    var rest1 := if t1 == CM then "" else "|" + g1;
    var rest2 := if t2 == CM then "" else "|" + g2;
    assert SeriesText(subjectKey, t1, g1) == p + TypeName(t1) + rest1;
    assert SeriesText(subjectKey, t2, g2) == p + TypeName(t2) + rest2;
    Slices(p, TypeName(t1), rest1);
    Slices(p, TypeName(t2), rest2);
    match t1 {
      case CM => assert TypeName(t1) == "CM";
      case TD => assert TypeName(t1) == "TD";
      case TP => assert TypeName(t1) == "TP";
    }
    match t2 {
      case CM => assert TypeName(t2) == "CM";
      case TD => assert TypeName(t2) == "TD";
      case TP => assert TypeName(t2) == "TP";
    }
    if t1 != CM {
      assert rest1[1..] == g1 && rest2[1..] == g2;
    }
  }

  /** The pieces of `p + x + rest`, read back by position. */
  lemma Slices(p: string, x: string, rest: string)
    ensures (p + x + rest)[|p|..|p| + |x|] == x
    ensures (p + x + rest)[|p| + |x|..] == rest
  {
  }

  /** For one subject, the series key tells the session kind and, for TD and TP, the group. */
  lemma SeriesKeySeparates(e1: Enriched, e2: Enriched, t1: CoreType, t2: CoreType)
    requires SubjectKey(e1) == SubjectKey(e2)
    requires SeriesKey(e1, t1) == SeriesKey(e2, t2)
    ensures t1 == t2
    ensures t1 != CM ==> GroupKey(e1) == GroupKey(e2)
  {
    SeriesTextSeparates(SubjectKey(e1), t1, t2, GroupKey(e1), GroupKey(e2));
  }

  /** `buildOccurrenceKey`: instants as written, teacher, location and summary, joined by `|`. */
  function OccurrenceKey(e: Enriched): string {
    Join([e.startIso, e.endIso, TeacherKey(e), NormalizeText(e.raw.location), NormalizeText(e.raw.summary)], "|")
  }

  // ---------------------------------------------------------------- labels

  /** `SessionOrdinalInfo`. */
  datatype SessionInfo = SessionInfo(kind: CoreType, ordinal: nat)

  /** `formatSessionLabel`: the kind followed by the ordinal in decimal. */
  function FormatSessionLabel(info: SessionInfo): string {
    TypeName(info.kind) + NatToString(info.ordinal)
  }

  /** A shown reads back as its kind and its ordinal. */
  lemma LabelReadsBack(info: SessionInfo)
    ensures var shown := FormatSessionLabel(info);
      |shown| > 2 && shown[..2] == TypeName(info.kind)
      && AllDigits(shown[2..]) && DigitsValue(shown[2..]) == info.ordinal
  {
    var shown := FormatSessionLabel(info);
    assert shown[2..] == NatToString(info.ordinal);
  }

  /** Distinct sessions get distinct labels. */
  lemma LabelInjective(a: SessionInfo, b: SessionInfo)
    requires FormatSessionLabel(a) == FormatSessionLabel(b)
    ensures a == b
  {
    LabelReadsBack(a);
    LabelReadsBack(b);
    match a.kind
    case CM => assert TypeName(a.kind) == "CM";
    case TD => assert TypeName(a.kind) == "TD";
    case TP => assert TypeName(a.kind) == "TP";
  }

  // ---------------------------------------------------------------- chronological order

  /** `Number.MAX_SAFE_INTEGER`: where an event without a readable instant sorts. */
  const MaxSafeInteger: int := 9007199254740991

  /** The largest magnitude of a JavaScript time value: 10^8 days in milliseconds. */
  const MaxTimeValue: int := 8640000000000000

  /** Which end of an event `getTimestamp` reads. */
  datatype Edge = Start | End

  /** `getTimestamp`: the parsed instant, else `Date.parse` of the text, else the largest safe integer. */
  function Timestamp(e: Enriched, edge: Edge, parse: string -> Option<int>): int {
    var direct := if edge == Start then e.startTs else e.endTs;
    if direct.Some? then direct.value
    else
      var parsed := parse(if edge == Start then e.startIso else e.endIso);
      if parsed.Some? then parsed.value else MaxSafeInteger
  }

  /** What the comparator of `computeSessionOrdinals` consults, in its order. */
  datatype SortKey = SortKey(start: int, end: int, names: seq<string>)

  function SortKeyOf(e: Enriched, parse: string -> Option<int>): SortKey {
    SortKey(Timestamp(e, Start, parse), Timestamp(e, End, parse),
      [SubjectKey(e), NormalizeText(e.courseType), GroupKey(e), TeacherKey(e), NormalizeText(e.raw.uid)])
  }

  /** Lists of texts compared at their first difference, in code-point order. */
  predicate NamesLe(a: seq<string>, b: seq<string>) {
    a == [] || (b != [] && (if a[0] != b[0] then StrLe(a[0], b[0]) else NamesLe(a[1..], b[1..])))
  }

  /** The comparator returns at most zero: start, then end, then the texts decide. */
  predicate KeyLe(a: SortKey, b: SortKey) {
    if a.start != b.start then a.start < b.start
    else if a.end != b.end then a.end < b.end
    else NamesLe(a.names, b.names)
  }

  function EventLe(parse: string -> Option<int>): (Enriched, Enriched) -> bool {
    (a: Enriched, b: Enriched) => KeyLe(SortKeyOf(a, parse), SortKeyOf(b, parse))
  }

  lemma {:induction false} NamesLeTotal(a: seq<string>, b: seq<string>)
    ensures NamesLe(a, b) || NamesLe(b, a)
  {
    if a != [] && b != [] {
      if a[0] != b[0] {
        StrLeTotal(a[0], b[0]);
      } else {
        NamesLeTotal(a[1..], b[1..]);
      }
    }
  }

  lemma {:induction false} NamesLeTrans(a: seq<string>, b: seq<string>, c: seq<string>)
    requires NamesLe(a, b) && NamesLe(b, c)
    ensures NamesLe(a, c)
  {
    if a != [] && b != [] && c != [] {
      if a[0] != b[0] && b[0] != c[0] {
        StrLeTrans(a[0], b[0], c[0]);
        if a[0] == c[0] {
          StrLeAntisym(a[0], b[0]);
        }
      } else if a[0] == b[0] && b[0] == c[0] {
        NamesLeTrans(a[1..], b[1..], c[1..]);
      }
    }
  }

  /** The comparator is a consistent total preorder, so the sort is well defined. */
  lemma EventLeTotalPreorder(parse: string -> Option<int>)
    ensures TotalPreorder(EventLe(parse))
  {
    var le := EventLe(parse);
    forall a, b ensures le(a, b) || le(b, a) {
      NamesLeTotal(SortKeyOf(a, parse).names, SortKeyOf(b, parse).names);
    }
    forall a, b, c | le(a, b) && le(b, c) ensures le(a, c) {
      var ka, kb, kc := SortKeyOf(a, parse), SortKeyOf(b, parse), SortKeyOf(c, parse);
      if ka.start == kb.start == kc.start && ka.end == kb.end == kc.end {
        NamesLeTrans(ka.names, kb.names, kc.names);
      }
    }
  }

  /** `[...events].sort(comparator)`: a stable sort by the comparator. */
  function SortedEvents(events: seq<Enriched>, parse: string -> Option<int>): (r: seq<Enriched>)
    ensures multiset(r) == multiset(events)
  {
    EventLeTotalPreorder(parse);
    SortBy(events, EventLe(parse))
  }

  lemma KeyLeStart(a: SortKey, b: SortKey)
    requires KeyLe(a, b)
    ensures a.start <= b.start
  {
  }

  /** The sorted events are in order of their start instants. */
  lemma SortedByStart(events: seq<Enriched>, parse: string -> Option<int>, i: int, j: int)
    requires 0 <= i <= j < |SortedEvents(events, parse)|
    ensures var s := SortedEvents(events, parse);
      Timestamp(s[i], Start, parse) <= Timestamp(s[j], Start, parse)
  {
    EventLeTotalPreorder(parse);
    var s := SortedEvents(events, parse);
    if i < j {
      assert EventLe(parse)(s[i], s[j]);
      KeyLeStart(SortKeyOf(s[i], parse), SortKeyOf(s[j], parse));
    }
  }

  /** An event whose start cannot be read sorts after every event whose start instant is known. */
  lemma UntimedLast(events: seq<Enriched>, parse: string -> Option<int>, i: int, j: int)
    requires 0 <= i < |SortedEvents(events, parse)| && 0 <= j < |SortedEvents(events, parse)|
    requires var s := SortedEvents(events, parse);
      s[i].startTs.Some? && s[i].startTs.value <= MaxTimeValue
    requires var s := SortedEvents(events, parse);
      s[j].startTs.None? && parse(s[j].startIso).None?
    ensures i < j
  {
    if j <= i {
      SortedByStart(events, parse, j, i);
    }
  }

  // ---------------------------------------------------------------- ordinals

  /** What numbering needs to know of an event: its series and its occurrence key. */
  datatype Tag = Tag(series: string, occurrence: string)

  /** The tag of a numbered event; nothing for a kind that is not numbered. */
  function TagOf(e: Enriched): Option<Tag> {
    match CoreSessionType(e.courseType)
    case None => None
    case Some(t) => Some(Tag(SeriesKey(e, t), OccurrenceKey(e)))
  }

  function TagsOf(s: seq<Enriched>): (r: seq<Option<Tag>>)
    ensures |r| == |s| && forall i :: 0 <= i < |s| ==> r[i] == TagOf(s[i])
  {
    seq(|s|, i requires 0 <= i < |s| => TagOf(s[i]))
  }

  /** The occurrence keys in series `sk`, in order. */
  function SeriesOccurrences(tags: seq<Option<Tag>>, sk: string): seq<string> {
    if tags == [] then []
    else SeriesOccurrences(tags[..|tags| - 1], sk) + Contribution(tags[|tags| - 1], sk)
  }

  function Contribution(tag: Option<Tag>, sk: string): seq<string> {
    if tag.Some? && tag.value.series == sk then [tag.value.occurrence] else []
  }

  /** The distinct occurrences of series `sk`, by first appearance. */
  function Occurrences(tags: seq<Option<Tag>>, sk: string): seq<string> {
    Dedup(SeriesOccurrences(tags, sk))
  }

  /** One more tag adds its occurrence key to its own series and to no other. */
  lemma OccurrencesSnoc(tags: seq<Option<Tag>>, i: int, sk: string)
    requires 0 <= i < |tags|
    ensures SeriesOccurrences(tags[..i + 1], sk) == SeriesOccurrences(tags[..i], sk) + Contribution(tags[i], sk)
  {
    assert tags[..i + 1][..i] == tags[..i];
  }

  /**
   * The ordinal of the numbered position `i`: the place of its occurrence key
   * among the distinct occurrences of its series so far, counting from one.
   */
  function Ordinal(tags: seq<Option<Tag>>, i: int): (r: nat)
    requires 0 <= i < |tags| && tags[i].Some?
    ensures r >= 1
  {
    var sk := tags[i].value.series;
    OccurrencesSnoc(tags, i, sk);
    1 + IndexIn(Occurrences(tags[..i + 1], sk), tags[i].value.occurrence)
  }

  /** The entry of position `i` of the sorted events: nothing for a kind that is not numbered. */
  function InfoAt(s: seq<Enriched>, i: int): Option<SessionInfo>
    requires 0 <= i < |s|
  {
    match CoreSessionType(s[i].courseType)
    case None => None
    case Some(t) => Some(SessionInfo(t, Ordinal(TagsOf(s), i)))
  }

  /** One more tag appends its occurrence key to its own series' occurrences when it is new there. */
  lemma OccurrencesStep(tags: seq<Option<Tag>>, i: int, sk: string)
    requires 0 <= i < |tags|
    ensures var d := Occurrences(tags[..i], sk);
      Occurrences(tags[..i + 1], sk) ==
        if tags[i].Some? && tags[i].value.series == sk && tags[i].value.occurrence !in d
        then d + [tags[i].value.occurrence] else d
  {
    OccurrencesSnoc(tags, i, sk);
    var so := SeriesOccurrences(tags[..i], sk);
    if tags[i].Some? && tags[i].value.series == sk {
      DedupSnoc(so, tags[i].value.occurrence);
    } else {
      assert so + Contribution(tags[i], sk) == so;
    }
  }

  /**
   * The source's counter and occurrence map of series `sk` agree with `d`,
   * the distinct occurrences of that series so far: the counter is their
   * number and each occurrence maps to its place counting from one.
   */
  ghost predicate SeriesAgrees(counters: map<string, nat>, perSeries: map<string, map<string, nat>>, sk: string, d: seq<string>) {
    && (sk in counters <==> sk in perSeries)
    && (sk !in counters ==> d == [])
    && (sk in counters ==> counters[sk] == |d|)
    && (sk in perSeries ==> forall ok :: ok in perSeries[sk] <==> ok in d)
    && (sk in perSeries ==> forall ok :: ok in perSeries[sk] && ok in d ==> perSeries[sk][ok] == 1 + IndexIn(d, ok))
  }

  /** The maps of the source after `tags`, series by series. */
  ghost predicate Tracks(counters: map<string, nat>, perSeries: map<string, map<string, nat>>, tags: seq<Option<Tag>>) {
    forall sk :: SeriesAgrees(counters, perSeries, sk, Occurrences(tags, sk))
  }

  /** Numbering a new occurrence of `sk` keeps its maps in agreement. */
  lemma AgreesNew(counters: map<string, nat>, perSeries: map<string, map<string, nat>>, sk: string, d: seq<string>, ok: string)
    requires SeriesAgrees(counters, perSeries, sk, d) && ok !in d
    ensures var n := (if sk in counters then counters[sk] else 0) + 1;
      var m := if sk in perSeries then perSeries[sk] else map[];
      n == |d| + 1 && SeriesAgrees(counters[sk := n], perSeries[sk := m[ok := n]], sk, d + [ok])
  {
    var n := (if sk in counters then counters[sk] else 0) + 1;
    var m := if sk in perSeries then perSeries[sk] else map[];
    var d' := d + [ok];
    forall x | x in m[ok := n] && x in d' ensures m[ok := n][x] == 1 + IndexIn(d', x) {
      if x == ok {
        assert d'[|d|] == ok;
      } else {
        IndexInPrefix(d, d', x);
      }
    }
  }

  /** Updating the maps of `sk` leaves another series in agreement. */
  lemma AgreesOther(counters: map<string, nat>, perSeries: map<string, map<string, nat>>, sk: string, sk': string,
                    d: seq<string>, n: nat, m: map<string, nat>)
    requires sk != sk' && SeriesAgrees(counters, perSeries, sk', d)
    ensures SeriesAgrees(counters[sk := n], perSeries[sk := m], sk', d)
  {
  }

  /** `computeSessionOrdinals`: the sorted events and, position by position, their session numbers. */
  method ComputeSessionOrdinals(events: seq<Enriched>, parse: string -> Option<int>)
    returns (sorted: seq<Enriched>, infos: seq<Option<SessionInfo>>)
    ensures sorted == SortedEvents(events, parse)
    ensures |infos| == |sorted|
    ensures forall i :: 0 <= i < |sorted| ==> infos[i] == InfoAt(sorted, i)
  {
    sorted := SortedEvents(events, parse);
    infos := NumberSessions(sorted);
  }

  /** The loop of `computeSessionOrdinals` over the sorted events. */
  method NumberSessions(sorted: seq<Enriched>) returns (infos: seq<Option<SessionInfo>>)
    ensures |infos| == |sorted|
    ensures forall i :: 0 <= i < |sorted| ==> infos[i] == InfoAt(sorted, i)
  {
    ghost var tags := TagsOf(sorted);
    var counters: map<string, nat> := map[];
    var perSeries: map<string, map<string, nat>> := map[];
    infos := [];
    for i := 0 to |sorted|
      invariant NumberedUpTo(infos, sorted, i)
      invariant Tracks(counters, perSeries, tags[..i])
    {
      var event := sorted[i];
      var coreType := CoreSessionType(event.courseType);
      if coreType.None? {
        TrackSkip(counters, perSeries, tags, i);
        NumberedExtend(infos, sorted, i, None);
        infos := infos + [None];
      } else {
        var seriesKey := SeriesKey(event, coreType.value);
        var occurrenceKey := OccurrenceKey(event);
        NumberedAt(sorted, i, coreType.value);
        var seriesMap := if seriesKey in perSeries then perSeries[seriesKey] else map[];
        var ordinal := if occurrenceKey in seriesMap then seriesMap[occurrenceKey] else 0;
        if occurrenceKey in seriesMap {
          TrackSeen(counters, perSeries, tags, i, seriesKey, occurrenceKey);
        }
        if ordinal == 0 {
          ordinal := (if seriesKey in counters then counters[seriesKey] else 0) + 1;
          TrackNew(counters, perSeries, tags, i, seriesKey, occurrenceKey, seriesMap, ordinal);
          counters := counters[seriesKey := ordinal];
          perSeries := perSeries[seriesKey := seriesMap[occurrenceKey := ordinal]];
        }
        NumberedExtend(infos, sorted, i, Some(SessionInfo(coreType.value, ordinal)));
        infos := infos + [Some(SessionInfo(coreType.value, ordinal))];
      }
    }
  }

  /** `infos` holds the entries of the first `i` sorted events. */
  ghost predicate NumberedUpTo(infos: seq<Option<SessionInfo>>, sorted: seq<Enriched>, i: int) {
    0 <= i <= |sorted| && |infos| == i && forall k :: 0 <= k < i ==> infos[k] == InfoAt(sorted, k)
  }

  lemma NumberedExtend(infos: seq<Option<SessionInfo>>, sorted: seq<Enriched>, i: int, x: Option<SessionInfo>)
    requires NumberedUpTo(infos, sorted, i) && i < |sorted| && x == InfoAt(sorted, i)
    ensures NumberedUpTo(infos + [x], sorted, i + 1)
  {
  }

  /** The tag and the entry of a numbered position. */
  lemma NumberedAt(s: seq<Enriched>, i: int, t: CoreType)
    requires 0 <= i < |s| && CoreSessionType(s[i].courseType) == Some(t)
    ensures TagsOf(s)[i] == Some(Tag(SeriesKey(s[i], t), OccurrenceKey(s[i])))
    ensures InfoAt(s, i) == Some(SessionInfo(t, Ordinal(TagsOf(s), i)))
  {
  }

  /** A position of a kind that is not numbered leaves every series as it was. */
  lemma TrackSkip(counters: map<string, nat>, perSeries: map<string, map<string, nat>>, tags: seq<Option<Tag>>, i: int)
    requires 0 <= i < |tags| && tags[i].None?
    requires Tracks(counters, perSeries, tags[..i])
    ensures Tracks(counters, perSeries, tags[..i + 1])
  {
    forall sk {:trigger Occurrences(tags[..i + 1], sk)}
      ensures SeriesAgrees(counters, perSeries, sk, Occurrences(tags[..i + 1], sk)) {
      OccurrencesStep(tags, i, sk);
    }
  }

  /** A repeated occurrence takes the ordinal its series gave it before. */
  lemma TrackSeen(counters: map<string, nat>, perSeries: map<string, map<string, nat>>, tags: seq<Option<Tag>>, i: int,
                  sk: string, ok: string)
    requires 0 <= i < |tags| && tags[i] == Some(Tag(sk, ok))
    requires Tracks(counters, perSeries, tags[..i])
    requires sk in perSeries && ok in perSeries[sk]
    ensures Tracks(counters, perSeries, tags[..i + 1])
    ensures perSeries[sk][ok] == Ordinal(tags, i) >= 1
  {
    assert SeriesAgrees(counters, perSeries, sk, Occurrences(tags[..i], sk));
    forall sk' {:trigger Occurrences(tags[..i + 1], sk')}
      ensures SeriesAgrees(counters, perSeries, sk', Occurrences(tags[..i + 1], sk')) {
      OccurrencesStep(tags, i, sk');
    }
    OccurrencesStep(tags, i, sk);
  }

  /** A new occurrence gets the next number of its series. */
  lemma TrackNew(counters: map<string, nat>, perSeries: map<string, map<string, nat>>, tags: seq<Option<Tag>>, i: int,
                 sk: string, ok: string, m: map<string, nat>, n: nat)
    requires 0 <= i < |tags| && tags[i] == Some(Tag(sk, ok))
    requires Tracks(counters, perSeries, tags[..i])
    requires m == (if sk in perSeries then perSeries[sk] else map[])
    requires !(ok in m && m[ok] != 0)
    requires n == (if sk in counters then counters[sk] else 0) + 1
    ensures Tracks(counters[sk := n], perSeries[sk := m[ok := n]], tags[..i + 1]) && n == Ordinal(tags, i)
  {
    var d := Occurrences(tags[..i], sk);
    assert SeriesAgrees(counters, perSeries, sk, d);
    assert ok !in d;
    OccurrencesStep(tags, i, sk);
    AgreesNew(counters, perSeries, sk, d, ok);
    forall sk' {:trigger Occurrences(tags[..i + 1], sk')}
      ensures SeriesAgrees(counters[sk := n], perSeries[sk := m[ok := n]], sk', Occurrences(tags[..i + 1], sk')) {
      if sk' != sk {
        OccurrencesStep(tags, i, sk');
        AgreesOther(counters, perSeries, sk, sk', Occurrences(tags[..i + 1], sk'), n, m[ok := n]);
      }
    }
    assert IndexIn(d + [ok], ok) == |d| by {
      assert (d + [ok])[|d|] == ok;
    }
  }

  // ---------------------------------------------------------------- what the numbering promises

  /** The occurrences of a series over two stretches of events, one after the other. */
  lemma {:induction false} SeriesAppend(a: seq<Option<Tag>>, b: seq<Option<Tag>>, sk: string)
    ensures SeriesOccurrences(a + b, sk) == SeriesOccurrences(a, sk) + SeriesOccurrences(b, sk)
    decreases |b|
  {
    if b == [] {
      assert a + b == a;
    } else {
      var b0 := b[..|b| - 1];
      var x := b[|b| - 1];
      calc {
        SeriesOccurrences(a + b, sk);
        { assert a + b == (a + b0) + [x]; }
        SeriesOccurrences((a + b0) + [x], sk);
        { SeriesSnoc(a + b0, x, sk); }
        SeriesOccurrences(a + b0, sk) + Contribution(x, sk);
        { SeriesAppend(a, b0, sk); }
        SeriesOccurrences(a, sk) + SeriesOccurrences(b0, sk) + Contribution(x, sk);
        { SeriesSnoc(b0, x, sk); assert b == b0 + [x]; }
        SeriesOccurrences(a, sk) + SeriesOccurrences(b, sk);
      }
    }
  }

  lemma SeriesSnoc(tags: seq<Option<Tag>>, x: Option<Tag>, sk: string)
    ensures SeriesOccurrences(tags + [x], sk) == SeriesOccurrences(tags, sk) + Contribution(x, sk)
  {
    assert (tags + [x])[..|tags|] == tags;
  }

  /** The distinct occurrences seen so far only grow, at the end. */
  lemma OccurrencesGrow(tags: seq<Option<Tag>>, i: int, j: int, sk: string)
    requires 0 <= i <= j <= |tags|
    ensures Occurrences(tags[..i], sk) <= Occurrences(tags[..j], sk)
  {
    assert tags[..j] == tags[..i] + tags[i..j];
    SeriesAppend(tags[..i], tags[i..j], sk);
    DedupExtends(SeriesOccurrences(tags[..i], sk), SeriesOccurrences(tags[i..j], sk));
  }

  /** An occurrence key belongs to a series exactly when some position carries that tag. */
  lemma {:induction false} SeriesMember(tags: seq<Option<Tag>>, sk: string, x: string)
    ensures x in SeriesOccurrences(tags, sk) <==> exists i :: 0 <= i < |tags| && tags[i] == Some(Tag(sk, x))
  {
    if tags != [] {
      var init := tags[..|tags| - 1];
      SeriesMember(init, sk, x);
      if exists i :: 0 <= i < |tags| && tags[i] == Some(Tag(sk, x)) {
        var i :| 0 <= i < |tags| && tags[i] == Some(Tag(sk, x));
        if i < |init| {
          assert init[i] == tags[i];
        }
      }
      if exists i :: 0 <= i < |init| && init[i] == Some(Tag(sk, x)) {
        var i :| 0 <= i < |init| && init[i] == Some(Tag(sk, x));
        assert tags[i] == init[i];
      }
    }
  }

  /** The ordinal of `i` read off the distinct occurrences of any longer stretch. */
  lemma OrdinalLater(tags: seq<Option<Tag>>, i: int, j: int)
    requires 0 <= i < j <= |tags| && tags[i].Some?
    ensures var t := tags[i].value;
      t.occurrence in Occurrences(tags[..j], t.series)
      && Ordinal(tags, i) == 1 + IndexIn(Occurrences(tags[..j], t.series), t.occurrence)
  {
    var t := tags[i].value;
    OccurrencesSnoc(tags, i, t.series);
    OccurrencesGrow(tags, i + 1, j, t.series);
    IndexInPrefix(Occurrences(tags[..i + 1], t.series), Occurrences(tags[..j], t.series), t.occurrence);
  }

  /** Two positions with the same series and occurrence key get the same ordinal. */
  lemma SameOccurrenceSameOrdinal(tags: seq<Option<Tag>>, i: int, j: int)
    requires 0 <= i < |tags| && 0 <= j < |tags| && tags[i].Some? && tags[i] == tags[j]
    ensures Ordinal(tags, i) == Ordinal(tags, j)
  {
    OrdinalLater(tags, i, |tags|);
    OrdinalLater(tags, j, |tags|);
  }

  /** Within a series, distinct occurrence keys get distinct ordinals. */
  lemma SameOrdinalSameOccurrence(tags: seq<Option<Tag>>, i: int, j: int)
    requires 0 <= i < |tags| && 0 <= j < |tags| && tags[i].Some? && tags[j].Some?
    requires tags[i].value.series == tags[j].value.series
    requires Ordinal(tags, i) == Ordinal(tags, j)
    ensures tags[i] == tags[j]
  {
    OrdinalLater(tags, i, |tags|);
    OrdinalLater(tags, j, |tags|);
  }

  /** An occurrence key new to its series gets the number after the series' count so far. */
  lemma NewOccurrenceNextOrdinal(tags: seq<Option<Tag>>, i: int)
    requires 0 <= i < |tags| && tags[i].Some?
    requires tags[i].value.occurrence !in SeriesOccurrences(tags[..i], tags[i].value.series)
    ensures Ordinal(tags, i) == |Occurrences(tags[..i], tags[i].value.series)| + 1
  {
    var sk, ok := tags[i].value.series, tags[i].value.occurrence;
    var d := Occurrences(tags[..i], sk);
    OccurrencesStep(tags, i, sk);
    assert (d + [ok])[|d|] == ok;
  }

  /** Some position of series `sk` carries ordinal `n`. */
  ghost predicate OrdinalTaken(tags: seq<Option<Tag>>, sk: string, n: int) {
    exists i :: 0 <= i < |tags| && tags[i].Some? && tags[i].value.series == sk && Ordinal(tags, i) == n
  }

  /** In a series with `k` distinct occurrences, the ordinals are exactly 1 to `k`. */
  lemma OrdinalsOneToCount(tags: seq<Option<Tag>>, sk: string)
    ensures forall i :: 0 <= i < |tags| && tags[i].Some? && tags[i].value.series == sk ==>
      1 <= Ordinal(tags, i) <= |Occurrences(tags, sk)|
    ensures forall n :: 1 <= n <= |Occurrences(tags, sk)| ==> OrdinalTaken(tags, sk, n)
  {
    assert tags[..|tags|] == tags;
    forall i | 0 <= i < |tags| && tags[i].Some? && tags[i].value.series == sk
      ensures Ordinal(tags, i) <= |Occurrences(tags, sk)|
    {
      OrdinalLater(tags, i, |tags|);
    }
    forall n | 1 <= n <= |Occurrences(tags, sk)|
      ensures OrdinalTaken(tags, sk, n)
    {
      var d := Occurrences(tags, sk);
      var x := d[n - 1];
      SeriesMember(tags, sk, x);
      var i :| 0 <= i < |tags| && tags[i] == Some(Tag(sk, x));
      OrdinalLater(tags, i, |tags|);
      assert IndexIn(d, x) == n - 1;
    }
  }

  /**
   * For sorted events: two core sessions with the same series and occurrence
   * keys carry the same ordinal, and two core sessions of one series carrying
   * the same ordinal have the same occurrence key.
   */
  lemma OrdinalsIdentifyOccurrences(s: seq<Enriched>, i: int, j: int)
    requires 0 <= i < |s| && 0 <= j < |s| && TagOf(s[i]).Some? && TagOf(s[j]).Some?
    requires TagOf(s[i]).value.series == TagOf(s[j]).value.series
    ensures InfoAt(s, i).Some? && InfoAt(s, j).Some?
    ensures InfoAt(s, i).value.ordinal == InfoAt(s, j).value.ordinal
      <==> TagOf(s[i]).value.occurrence == TagOf(s[j]).value.occurrence
  {
    var tags := TagsOf(s);
    if TagOf(s[i]).value.occurrence == TagOf(s[j]).value.occurrence {
      SameOccurrenceSameOrdinal(tags, i, j);
    }
    if Ordinal(tags, i) == Ordinal(tags, j) {
      SameOrdinalSameOccurrence(tags, i, j);
    }
  }
}
