/**
 * The course explorer view: the list of subjects to pick from, the events of
 * the picked subject with mutualised duplicates merged, and the hour
 * statistics of that subject per course type and per teacher.
 */
module CourseExplorer {
  import opened Base
  import opened Lists
  import opened Text
  import opened FrontendTypes
  import opened OrderedMaps

  // ---------------------------------------------------------------- subjects

  /** A subject is offered when it is longer than two UTF-16 code units. */
  predicate Offered(subject: string) {
    JsLength(subject) > 2
  }

  /** The offered subjects of the events, one per event that has one, in event order. */
  function OfferedSubjects(events: seq<Enriched>): (r: seq<string>)
    ensures forall x :: x in r <==> Offered(x) && exists i :: 0 <= i < |events| && events[i].subject == x
  {
    if events == [] then []
    else
      var init := events[..|events| - 1];
      var last := events[|events| - 1];
      var r := OfferedSubjects(init) + (if Offered(last.subject) then [last.subject] else []);
      assert forall i :: 0 <= i < |init| ==> init[i] == events[i];
      r
  }

  /**
   * The `Set` filled by the `forEach` over the events: each offered subject
   * once, in order of first appearance.
   */
  method CollectSubjects(events: seq<Enriched>) returns (found: seq<string>)
    ensures found == Dedup(OfferedSubjects(events))
  {
    found := [];
    for i := 0 to |events|
      invariant found == Dedup(OfferedSubjects(events[..i]))
    {
      var ev := events[i];
      ghost var before := OfferedSubjects(events[..i]);
      assert events[..i + 1][..i] == events[..i];
      assert OfferedSubjects(events[..i + 1]) == before + (if Offered(ev.subject) then [ev.subject] else []);
      if Offered(ev.subject) {
        DedupSnoc(before, ev.subject);
        if ev.subject !in found {
          found := found + [ev.subject];
        }
      } else {
        assert before + [] == before;
      }
    }
    assert events[..|events|] == events;
  }

  /** The subject-filter test: the lower-cased subject contains the lower-cased term. */
  function MatchesTerm(term: string): string -> bool {
    (s: string) => Contains(Lower(s), Lower(term))
  }

  /**
   * `subjects`: the distinct offered subjects in ascending order, narrowed to
   * those matching the filter when one is typed.
   */
  method Subjects(events: seq<Enriched>, subjectFilter: string) returns (r: seq<string>)
    ensures SortedBy(r, StrLe) && NoDup(r)
    ensures forall x :: x in r <==>
      && Offered(x) && (exists i :: 0 <= i < |events| && events[i].subject == x)
      && (subjectFilter == [] || Contains(Lower(x), Lower(subjectFilter)))
  {
    var found := CollectSubjects(events);
    StrLeTotalPreorder();
    var all := SortBy(found, StrLe);
    NoDupPermutation(found, all);
    SameMembers(found, all);
    if subjectFilter == [] {
      r := all;
    } else {
      r := Filter(all, MatchesTerm(subjectFilter));
      FilterNoDup(all, MatchesTerm(subjectFilter));
      FilterSorted(all, MatchesTerm(subjectFilter), StrLe);
    }
  }

  // ---------------------------------------------------------------- merging mutualised duplicates

  /** `start_ts ?? 0`. */
  function StartOrZero(e: Enriched): int {
    e.startTs.GetOr(0)
  }

  /** The comparator `aTs - bTs` on `start_ts ?? 0`, as "less or equal". */
  function TsLe(): (Enriched, Enriched) -> bool {
    (a: Enriched, b: Enriched) => StartOrZero(a) <= StartOrZero(b)
  }

  lemma TsLeTotalPreorder()
    ensures TotalPreorder(TsLe())
  {
  }

  function OfSubject(subject: string): Enriched -> bool {
    (e: Enriched) => e.subject == subject
  }

  /** The events of the picked subject by start instant; none while no subject is picked. */
  function SubjectEvents(events: seq<Enriched>, selected: string): (r: seq<Enriched>)
    ensures SortedBy(r, TsLe())
    ensures forall e :: e in r <==> selected != [] && e in events && e.subject == selected
  {
    if selected == [] then []
    else
      TsLeTotalPreorder();
      SortFilterMembers(events, OfSubject(selected), TsLe());
      SortBy(Filter(events, OfSubject(selected)), TsLe())
  }

  /** Events sharing start, end, type and teacher are one mutualised session. */
  function MergeKey(e: Enriched): string {
    e.startIso + "|" + e.endIso + "|" + e.courseType + "|" + e.extractedTeacher
  }

  /** `addPromos(set, ev.promo || '')`: the promo items an event adds to its group. */
  function PromoItems(e: Enriched): seq<string> {
    CommaItems(e.promo)
  }

  /*
   * The merge is stated over any element type, key and item function: only
   * the shape of the `forEach` matters to its proof.
   */

  function KeysOf<T>(evs: seq<T>, key: T -> string): (r: seq<string>)
    ensures |r| == |evs| && forall i :: 0 <= i < |evs| ==> r[i] == key(evs[i])
  {
    seq(|evs|, i requires 0 <= i < |evs| => key(evs[i]))
  }

  /** The items of the elements with key `k`, in order. */
  function ItemsWith<T>(evs: seq<T>, key: T -> string, items: T -> seq<string>, k: string): seq<string> {
    if evs == [] then []
    else
      var last := evs[|evs| - 1];
      ItemsWith(evs[..|evs| - 1], key, items, k) + (if key(last) == k then items(last) else [])
  }

  /** An item belongs to a key exactly when some element with that key has it. */
  lemma {:induction false} ItemsWithMember<T>(evs: seq<T>, key: T -> string, items: T -> seq<string>, k: string, x: string)
    ensures x in ItemsWith(evs, key, items, k) <==> exists i :: 0 <= i < |evs| && key(evs[i]) == k && x in items(evs[i])
  {
    if evs != [] {
      var init := evs[..|evs| - 1];
      ItemsWithMember(init, key, items, k, x);
      assert forall i :: 0 <= i < |init| ==> init[i] == evs[i];
    }
  }

  lemma {:induction false} ItemsWithAbsent<T>(evs: seq<T>, key: T -> string, items: T -> seq<string>, k: string)
    requires k !in KeysOf(evs, key)
    ensures ItemsWith(evs, key, items, k) == []
  {
    if evs != [] {
      var init := evs[..|evs| - 1];
      assert forall i :: 0 <= i < |init| ==> KeysOf(init, key)[i] == KeysOf(evs, key)[i];
      ItemsWithAbsent(init, key, items, k);
      assert KeysOf(evs, key)[|evs| - 1] == key(evs[|evs| - 1]);
    }
  }

  /** An entry of the `merged` map: the first element seen with the key and the set of its items. */
  datatype Group<T> = Group(base: T, promos: seq<string>)

  /** The group the elements `evs` make for key `k`. */
  function GroupOf<T>(evs: seq<T>, key: T -> string, items: T -> seq<string>, k: string): Group<T>
    requires k in KeysOf(evs, key)
  {
    Group(evs[IndexIn(KeysOf(evs, key), k)], Dedup(ItemsWith(evs, key, items, k)))
  }

  /** `merged` holds one group per key of `evs`, keys in order of first appearance. */
  ghost predicate MergedAs<T>(merged: Table<Group<T>>, evs: seq<T>, key: T -> string, items: T -> seq<string>) {
    KeysAgree(merged, evs, key) && DomainAgrees(merged, evs, key) && GroupsAgree(merged, evs, key, items)
  }

  ghost predicate KeysAgree<T>(merged: Table<Group<T>>, evs: seq<T>, key: T -> string) {
    merged.keys == Dedup(KeysOf(evs, key))
  }

  ghost predicate DomainAgrees<T>(merged: Table<Group<T>>, evs: seq<T>, key: T -> string) {
    forall k :: k in merged.at <==> k in KeysOf(evs, key)
  }

  ghost predicate GroupsAgree<T>(merged: Table<Group<T>>, evs: seq<T>, key: T -> string, items: T -> seq<string>) {
    forall k :: k in merged.at ==> k in KeysOf(evs, key) && merged.at[k] == GroupOf(evs, key, items, k)
  }

  /** Adding items one by one to a `Set`: the new ones go last. */
  method AddAll(found: seq<string>, items: seq<string>, ghost src: seq<string>) returns (r: seq<string>)
    requires found == Dedup(src)
    ensures r == Dedup(src + items)
  {
    r := found;
    assert src + items[..0] == src;
    for j := 0 to |items|
      invariant r == Dedup(src + items[..j])
    {
      var next := if items[j] in r then r else r + [items[j]];
      DedupPrefixStep(src, items, j, r, next);
      r := next;
    }
    assert items[..|items|] == items;
  }

  /** What one more element does to the groups of the keys it does not have. */
  lemma MergeOther<T>(evs: seq<T>, key: T -> string, items: T -> seq<string>, ev: T, k: string)
    requires k in KeysOf(evs, key) && k != key(ev)
    ensures k in KeysOf(evs + [ev], key) && GroupOf(evs + [ev], key, items, k) == GroupOf(evs, key, items, k)
  {
    var ks := KeysOf(evs + [ev], key);
    assert KeysOf(evs, key) <= ks by {
      assert forall i :: 0 <= i < |evs| ==> ks[i] == KeysOf(evs, key)[i];
    }
    IndexInPrefix(KeysOf(evs, key), ks, k);
    var idx := IndexIn(KeysOf(evs, key), k);
    assert (evs + [ev])[idx] == evs[idx];
    assert (evs + [ev])[..|evs|] == evs;
    var p := ItemsWith(evs, key, items, k);
    assert ItemsWith(evs + [ev], key, items, k) == p + [];
    assert p + [] == p;
  }

  /** The group of the key of the new element. */
  lemma MergeOwn<T>(merged: Table<Group<T>>, evs: seq<T>, key: T -> string, items: T -> seq<string>, ev: T,
                    entry: Group<T>, promos: seq<string>)
    requires MergedAs(merged, evs, key, items)
    requires entry == if key(ev) in merged.at then merged.at[key(ev)] else Group(ev, [])
    requires promos == Dedup(ItemsWith(evs, key, items, key(ev)) + items(ev))
    ensures key(ev) in KeysOf(evs + [ev], key) && GroupOf(evs + [ev], key, items, key(ev)) == Group(entry.base, promos)
  {
    var k := key(ev);
    var ks := KeysOf(evs + [ev], key);
    assert ks == KeysOf(evs, key) + [k];
    assert (evs + [ev])[..|evs|] == evs;
    assert ItemsWith(evs + [ev], key, items, k) == ItemsWith(evs, key, items, k) + items(ev);
    if k in merged.at {
      IndexInPrefix(KeysOf(evs, key), ks, k);
    } else {
      assert k !in KeysOf(evs, key);
      assert IndexIn(ks, k) == |evs|;
    }
  }

  /** The entry the loop picks up holds the items seen so far under its key. */
  lemma EntryPromos<T>(merged: Table<Group<T>>, evs: seq<T>, key: T -> string, items: T -> seq<string>, ev: T, entry: Group<T>)
    requires MergedAs(merged, evs, key, items)
    requires entry == if key(ev) in merged.at then merged.at[key(ev)] else Group(ev, [])
    ensures entry.promos == Dedup(ItemsWith(evs, key, items, key(ev)))
  {
    if key(ev) !in merged.at {
      ItemsWithAbsent(evs, key, items, key(ev));
    }
  }

  lemma MergeStep<T>(merged: Table<Group<T>>, evs: seq<T>, key: T -> string, items: T -> seq<string>, ev: T,
                     entry: Group<T>, promos: seq<string>)
    requires MergedAs(merged, evs, key, items)
    requires entry == if key(ev) in merged.at then merged.at[key(ev)] else Group(ev, [])
    requires promos == Dedup(ItemsWith(evs, key, items, key(ev)) + items(ev))
    ensures MergedAs(Put(merged, key(ev), Group(entry.base, promos)), evs + [ev], key, items)
  {
    MergeKeys(merged, evs, key, ev, Group(entry.base, promos));
    MergeGroupsStep(merged, evs, key, items, ev, entry, promos);
  }

  /** The new key goes last in the key order, and the domain gains it. */
  lemma MergeKeys<T>(merged: Table<Group<T>>, evs: seq<T>, key: T -> string, ev: T, g: Group<T>)
    requires KeysAgree(merged, evs, key) && DomainAgrees(merged, evs, key)
    ensures KeysAgree(Put(merged, key(ev), g), evs + [ev], key)
    ensures DomainAgrees(Put(merged, key(ev), g), evs + [ev], key)
  {
    assert KeysOf(evs + [ev], key) == KeysOf(evs, key) + [key(ev)];
    DedupSnoc(KeysOf(evs, key), key(ev));
  }

  /** Every group after the step is the group its key has over the longer sequence. */
  lemma MergeGroupsStep<T>(merged: Table<Group<T>>, evs: seq<T>, key: T -> string, items: T -> seq<string>, ev: T,
                           entry: Group<T>, promos: seq<string>)
    requires MergedAs(merged, evs, key, items)
    requires entry == if key(ev) in merged.at then merged.at[key(ev)] else Group(ev, [])
    requires promos == Dedup(ItemsWith(evs, key, items, key(ev)) + items(ev))
    ensures GroupsAgree(Put(merged, key(ev), Group(entry.base, promos)), evs + [ev], key, items)
  {
    var k := key(ev);
    var next := Put(merged, k, Group(entry.base, promos));
    MergeOwn(merged, evs, key, items, ev, entry, promos);
    forall n | n in next.at ensures n in KeysOf(evs + [ev], key) && next.at[n] == GroupOf(evs + [ev], key, items, n) {
      if n != k {
        MergeOther(evs, key, items, ev, n);
      }
    }
  }

  /** One step of the `forEach`: find or create the entry of the element's key, then add its items. */
  method MergeOne<T>(merged: Table<Group<T>>, ghost done: seq<T>, key: T -> string, items: T -> seq<string>, ev: T)
    returns (next: Table<Group<T>>)
    requires MergedAs(merged, done, key, items)
    ensures MergedAs(next, done + [ev], key, items)
  {
    var k := key(ev);
    var entry := if k in merged.at then merged.at[k] else Group(ev, []);
    EntryPromos(merged, done, key, items, ev, entry);
    var promos := AddAll(entry.promos, items(ev), ItemsWith(done, key, items, k));
    MergeStep(merged, done, key, items, ev, entry, promos);
    next := Put(merged, k, Group(entry.base, promos));
  }

  /** The `forEach` that fills `merged`: a group per key, holding its first element and its items. */
  method MergeGroups<T>(evs: seq<T>, key: T -> string, items: T -> seq<string>) returns (merged: Table<Group<T>>)
    ensures MergedAs(merged, evs, key, items)
  {
    merged := Empty();
    assert MergedAs(merged, evs[..0], key, items);
    for i := 0 to |evs|
      invariant MergedAs(merged, evs[..i], key, items)
    {
      merged := MergeOne(merged, evs[..i], key, items, evs[i]);
      assert evs[..i + 1] == evs[..i] + [evs[i]];
    }
    assert evs[..|evs|] == evs;
  }

  /** The groups as a list, one element per key, in key order, with `shown` applied to each. */
  function Flattened<T>(merged: Table<Group<T>>, shown: Group<T> -> T): (r: seq<T>)
    requires forall k :: k in merged.keys ==> k in merged.at
    ensures |r| == |merged.keys| && forall i :: 0 <= i < |r| ==> r[i] == shown(merged.at[merged.keys[i]])
  {
    seq(|merged.keys|, i requires 0 <= i < |merged.keys| => shown(merged.at[merged.keys[i]]))
  }

  /** The flattened groups: the element at place `i` is the shown group of the `i`-th key. */
  lemma FlattenedGroups<T>(merged: Table<Group<T>>, evs: seq<T>, key: T -> string, items: T -> seq<string>,
                           shown: Group<T> -> T)
    requires MergedAs(merged, evs, key, items)
    requires forall g :: key(shown(g)) == key(g.base)
    ensures forall k :: k in merged.keys <==> k in KeysOf(evs, key)
    ensures var flats := Flattened(merged, shown);
      && KeysOf(flats, key) == merged.keys
      && forall i :: 0 <= i < |flats| ==> flats[i] == shown(GroupOf(evs, key, items, merged.keys[i]))
  {
    var flats := Flattened(merged, shown);
    forall i | 0 <= i < |flats| ensures key(flats[i]) == merged.keys[i] {
      var k := merged.keys[i];
      assert merged.at[k] == GroupOf(evs, key, items, k);
    }
  }

  /** Sorting elements with distinct keys keeps them distinct and keeps the set of keys. */
  lemma SortedKeys<T(!new)>(flats: seq<T>, r: seq<T>, key: T -> string)
    requires multiset(flats) == multiset(r)
    requires NoDup(KeysOf(flats, key))
    ensures forall i, j :: 0 <= i < j < |r| ==> key(r[i]) != key(r[j])
    ensures forall k :: k in KeysOf(r, key) <==> k in KeysOf(flats, key)
  {
    var kf := KeysOf(flats, key);
    assert forall i, j :: 0 <= i < j < |flats| ==> key(flats[i]) != key(flats[j]) by {
      forall i, j | 0 <= i < j < |flats| ensures key(flats[i]) != key(flats[j]) {
        assert kf[i] != kf[j];
      }
    }
    KeyedPermutation(flats, r, key);
    SameMembers(flats, r);
    forall k ensures k in KeysOf(r, key) <==> k in kf {
      if k in kf {
        var i :| 0 <= i < |flats| && kf[i] == k;
        assert flats[i] in r;
        var j :| 0 <= j < |r| && r[j] == flats[i];
        assert KeysOf(r, key)[j] == k;
      }
      if k in KeysOf(r, key) {
        var j :| 0 <= j < |r| && KeysOf(r, key)[j] == k;
        assert r[j] in flats;
        var i :| 0 <= i < |flats| && flats[i] == r[j];
        assert kf[i] == k;
      }
    }
  }

  /**
   * Merge, flatten and sort: the merged list holds one element per key of
   * `evs`, no two with the same key, each the `shown` form of its key's
   * group, in `le` order.
   */
  method MergedList<T(!new)>(evs: seq<T>, key: T -> string, items: T -> seq<string>, shown: Group<T> -> T,
                             le: (T, T) -> bool)
    returns (r: seq<T>)
    requires TotalPreorder(le)
    requires forall g :: key(shown(g)) == key(g.base)
    ensures SortedBy(r, le)
    ensures forall i, j :: 0 <= i < j < |r| ==> key(r[i]) != key(r[j])
    ensures forall k :: k in KeysOf(r, key) <==> k in KeysOf(evs, key)
    ensures forall e :: e in r ==> key(e) in KeysOf(evs, key) && e == shown(GroupOf(evs, key, items, key(e)))
  {
    var merged := MergeGroups(evs, key, items);
    var flats := Flattened(merged, shown);
    FlattenedGroups(merged, evs, key, items, shown);
    r := SortBy(flats, le);
    SortedKeys(flats, r, key);
    ShownEntries(flats, r, merged.keys, evs, key, items, shown);
  }

  /** Each element of a permutation of the flattened groups is the shown group of its own key. */
  lemma ShownEntries<T>(flats: seq<T>, r: seq<T>, ks: seq<string>, evs: seq<T>, key: T -> string,
                        items: T -> seq<string>, shown: Group<T> -> T)
    requires multiset(flats) == multiset(r)
    requires KeysOf(flats, key) == ks && forall k :: k in ks ==> k in KeysOf(evs, key)
    requires forall i :: 0 <= i < |flats| ==> flats[i] == shown(GroupOf(evs, key, items, ks[i]))
    ensures forall e :: e in r ==> key(e) in KeysOf(evs, key) && e == shown(GroupOf(evs, key, items, key(e)))
  {
    SameMembers(flats, r);
    forall e | e in r ensures key(e) in KeysOf(evs, key) && e == shown(GroupOf(evs, key, items, key(e))) {
      var i :| 0 <= i < |flats| && flats[i] == e;
      assert KeysOf(flats, key)[i] == ks[i];
    }
  }

  /** An entry as the list shows it: its first event, with the group's promos joined by ", ". */
  function Shown(g: Group<Enriched>): Enriched {
    g.base.(promo := Join(g.promos, ", "))
  }

  /**
   * `courseEvents`: none while no subject is picked; otherwise the events of
   * the subject merged by start, end, type and teacher, by start instant.
   */
  method CourseEvents(events: seq<Enriched>, selected: string) returns (r: seq<Enriched>)
    ensures selected == [] ==> r == []
    ensures SortedBy(r, TsLe())
    ensures forall i, j :: 0 <= i < j < |r| ==> MergeKey(r[i]) != MergeKey(r[j])
    ensures forall k :: k in KeysOf(r, MergeKey) <==> k in KeysOf(SubjectEvents(events, selected), MergeKey)
    ensures forall e :: e in r ==>
      var sub := SubjectEvents(events, selected);
      MergeKey(e) in KeysOf(sub, MergeKey) && e == Shown(GroupOf(sub, MergeKey, PromoItems, MergeKey(e)))
  {
    if selected == [] {
      return [];
    }
    var sub := SubjectEvents(events, selected);
    TsLeTotalPreorder();
    r := MergedList(sub, MergeKey, PromoItems, Shown, TsLe());
  }

  /** A merged entry's promos are exactly the items listed by the events merged into it, each once. */
  lemma MergedPromos(evs: seq<Enriched>, k: string, x: string)
    requires k in KeysOf(evs, MergeKey)
    ensures NoDup(GroupOf(evs, MergeKey, PromoItems, k).promos)
    ensures x in GroupOf(evs, MergeKey, PromoItems, k).promos <==>
      exists i :: 0 <= i < |evs| && MergeKey(evs[i]) == k && x in CommaItems(evs[i].promo)
  {
    ItemsWithMember(evs, MergeKey, PromoItems, k, x);
  }

  /** A merged entry is based on the first event with its key: no earlier event has that key. */
  lemma MergedBase(evs: seq<Enriched>, k: string)
    requires k in KeysOf(evs, MergeKey)
    ensures var n := IndexIn(KeysOf(evs, MergeKey), k);
      && n < |evs| && GroupOf(evs, MergeKey, PromoItems, k).base == evs[n] && MergeKey(evs[n]) == k
      && forall i :: 0 <= i < n ==> MergeKey(evs[i]) != k
  {
    var ks := KeysOf(evs, MergeKey);
    var n := IndexIn(ks, k);
    forall i | 0 <= i < n ensures MergeKey(evs[i]) != k {
      assert ks[..n][i] == ks[i];
    }
  }

  // ---------------------------------------------------------------- hour statistics

  /** The course-type buckets of this view: there is no meeting bucket here. */
  datatype Kind = KindCm | KindTd | KindTp | KindProject | KindExam | KindOther

  /** The first of CM, TD, TP, project and exam whose marker occurs in the upper-cased type, else other. */
  function KindOf(courseType: string): Kind {
    var t := Upper(courseType);
    if Contains(t, "CM") then KindCm
    else if Contains(t, "TD") then KindTd
    else if Contains(t, "TP") then KindTp
    else if Contains(t, "PROJET") || Contains(t, "PROJECT") then KindProject
    else if Contains(t, "EXAM") || Contains(t, "DS") || Contains(t, "CC") || Contains(t, "CT") then KindExam
    else KindOther
  }

  /** Lectures, tutorials, practicals and projects make up the total. */
  predicate Counted(k: Kind) {
    k.KindCm? || k.KindTd? || k.KindTp? || k.KindProject?
  }

  /** Hours per bucket and the total of the counted buckets. */
  datatype Tally = Tally(cm: real, td: real, tp: real, project: real, exam: real, other: real, total: real)

  const NoTally := Tally(0.0, 0.0, 0.0, 0.0, 0.0, 0.0, 0.0)

  /** The total is the sum of the counted buckets. */
  predicate Balanced(t: Tally) {
    t.total == t.cm + t.td + t.tp + t.project
  }

  function AllBuckets(t: Tally): real {
    t.cm + t.td + t.tp + t.project + t.exam + t.other
  }

  /** `dur` hours in bucket `k`: added to that bucket, and to the total when the bucket is counted. */
  function AddTally(t: Tally, k: Kind, dur: real): (r: Tally)
    ensures Balanced(t) ==> Balanced(r)
    ensures AllBuckets(r) == AllBuckets(t) + dur
    ensures r.total == t.total + (if Counted(k) then dur else 0.0)
  {
    var r := match k
      case KindCm => t.(cm := t.cm + dur)
      case KindTd => t.(td := t.td + dur)
      case KindTp => t.(tp := t.tp + dur)
      case KindProject => t.(project := t.project + dur)
      case KindExam => t.(exam := t.exam + dur)
      case KindOther => t.(other := t.other + dur);
    if Counted(k) then r.(total := r.total + dur) else r
  }

  /** The view-wide counters after the events `evs`. */
  function TotalsOf(evs: seq<Enriched>): Tally {
    if evs == [] then NoTally
    else
      var last := evs[|evs| - 1];
      AddTally(TotalsOf(evs[..|evs| - 1]), KindOf(last.courseType), last.durationHours)
  }

  lemma {:induction false} TotalsBalanced(evs: seq<Enriched>)
    ensures Balanced(TotalsOf(evs))
    ensures AllBuckets(TotalsOf(evs)) == HoursOf(evs)
  {
    if evs != [] {
      TotalsBalanced(evs[..|evs| - 1]);
    }
  }

  function HoursOf(evs: seq<Enriched>): real {
    if evs == [] then 0.0 else HoursOf(evs[..|evs| - 1]) + evs[|evs| - 1].durationHours
  }

  /** `splitTeachers(extractedTeacher)`, or the unknown label when it names nobody. */
  function Targets(ev: Enriched, unknown: string): (r: seq<string>)
    ensures r != []
    ensures forall x :: x in r ==> x == unknown || x in CommaItems(ev.extractedTeacher)
  {
    var names := CommaItems(ev.extractedTeacher);
    if |names| > 0 then names else [unknown]
  }

  /** One teacher credited with an event's hours in a bucket. */
  datatype TCredit = TCredit(name: string, kind: Kind, hours: real)

  function CreditsFor(names: seq<string>, kind: Kind, hours: real): (r: seq<TCredit>)
    ensures |r| == |names| && forall i :: 0 <= i < |r| ==> r[i] == TCredit(names[i], kind, hours)
  {
    seq(|names|, i requires 0 <= i < |names| => TCredit(names[i], kind, hours))
  }

  function EventCredits(ev: Enriched, unknown: string): seq<TCredit> {
    CreditsFor(Targets(ev, unknown), KindOf(ev.courseType), ev.durationHours)
  }

  function AllCredits(evs: seq<Enriched>, unknown: string): seq<TCredit> {
    if evs == [] then [] else AllCredits(evs[..|evs| - 1], unknown) + EventCredits(evs[|evs| - 1], unknown)
  }

  function NamesOf(cs: seq<TCredit>): (r: seq<string>)
    ensures |r| == |cs| && forall i :: 0 <= i < |cs| ==> r[i] == cs[i].name
  {
    seq(|cs|, i requires 0 <= i < |cs| => cs[i].name)
  }

  /** Folding `step` over the credits of teacher `n`, from `z`. */
  function FoldNamed<S>(cs: seq<TCredit>, n: string, z: S, step: (S, TCredit) -> S): S {
    if cs == [] then z
    else
      var last := cs[|cs| - 1];
      var t := FoldNamed(cs[..|cs| - 1], n, z, step);
      if last.name == n then step(t, last) else t
  }

  /** `step` applied `m` times with the credit `c`. */
  function Iterate<S>(t: S, step: (S, TCredit) -> S, c: TCredit, m: nat): S {
    if m == 0 then t else step(Iterate(t, step, c, m - 1), c)
  }

  /** Credits for a list of names reach teacher `n` once per time `n` is listed. */
  lemma {:induction false} FoldCreditsFor<S>(cs: seq<TCredit>, names: seq<string>, k: Kind, dur: real, n: string,
                                             z: S, step: (S, TCredit) -> S)
    ensures FoldNamed(cs + CreditsFor(names, k, dur), n, z, step) ==
      Iterate(FoldNamed(cs, n, z, step), step, TCredit(n, k, dur), Count(names, n))
    decreases |names|
  {
    if names == [] {
      assert cs + CreditsFor(names, k, dur) == cs;
    } else {
      var init := names[..|names| - 1];
      var x := names[|names| - 1];
      FoldCreditsFor(cs, init, k, dur, n, z, step);
      var all := cs + CreditsFor(names, k, dur);
      assert all[..|all| - 1] == cs + CreditsFor(init, k, dur);
      assert all[|all| - 1] == TCredit(x, k, dur);
      assert Count(names, n) == Count(init, n) + if x == n then 1 else 0;
    }
  }

  function CreditStep(): (Tally, TCredit) -> Tally {
    (t: Tally, c: TCredit) => AddTally(t, c.kind, c.hours)
  }

  /** The counters of teacher `n` after the credits `cs`. */
  function TallyOf(cs: seq<TCredit>, n: string): Tally {
    FoldNamed(cs, n, NoTally, CreditStep())
  }

  lemma {:induction false} TallyBalanced(cs: seq<TCredit>, n: string)
    ensures Balanced(TallyOf(cs, n))
  {
    if cs != [] {
      TallyBalanced(cs[..|cs| - 1], n);
    }
  }

  lemma {:induction false} TallyAbsent(cs: seq<TCredit>, n: string)
    requires n !in NamesOf(cs)
    ensures TallyOf(cs, n) == NoTally
  {
    if cs != [] {
      var init := cs[..|cs| - 1];
      assert forall i :: 0 <= i < |init| ==> NamesOf(init)[i] == NamesOf(cs)[i];
      TallyAbsent(init, n);
      assert NamesOf(cs)[|cs| - 1] == cs[|cs| - 1].name;
    }
  }

  /**
   * Every listed teacher gets the event's full duration in the event's
   * bucket, once per time the name is listed; nobody else gets anything.
   */
  lemma CreditsForTally(cs: seq<TCredit>, names: seq<string>, k: Kind, dur: real, n: string)
    ensures TallyOf(cs + CreditsFor(names, k, dur), n) == Iterate(TallyOf(cs, n), CreditStep(), TCredit(n, k, dur), Count(names, n))
    ensures n !in names ==> TallyOf(cs + CreditsFor(names, k, dur), n) == TallyOf(cs, n)
  {
    FoldCreditsFor(cs, names, k, dur, n, NoTally, CreditStep());
  }

  /** An event that names nobody is credited in full to the unknown label, and to nobody else. */
  lemma UnknownCredited(cs: seq<TCredit>, ev: Enriched, unknown: string, n: string)
    requires CommaItems(ev.extractedTeacher) == []
    ensures TallyOf(cs + EventCredits(ev, unknown), n) ==
      if n == unknown then AddTally(TallyOf(cs, n), KindOf(ev.courseType), ev.durationHours) else TallyOf(cs, n)
  {
    CreditsForTally(cs, Targets(ev, unknown), KindOf(ev.courseType), ev.durationHours, n);
    assert Targets(ev, unknown) == [unknown];
  }

  /** The entry of teacher `n` agrees with the credits `cs`. */
  ghost predicate NameAgrees(table: Table<Tally>, cs: seq<TCredit>, n: string) {
    (n in table.at <==> n in NamesOf(cs)) && (n in table.at ==> table.at[n] == TallyOf(cs, n))
  }

  /** `teacherMap` after the credits `cs`: teachers in order of first credit, each with its counters. */
  ghost predicate TallyAs(table: Table<Tally>, cs: seq<TCredit>) {
    table.keys == Dedup(NamesOf(cs)) && forall n :: NameAgrees(table, cs, n)
  }

  /** One more credit changes only the counters of its own teacher. */
  lemma TallySnoc(cs: seq<TCredit>, c: TCredit, n: string)
    ensures TallyOf(cs + [c], n) == if c.name == n then AddTally(TallyOf(cs, n), c.kind, c.hours) else TallyOf(cs, n)
  {
    assert (cs + [c])[..|cs|] == cs;
  }

  lemma TallyStep(table: Table<Tally>, cs: seq<TCredit>, c: TCredit, entry: Tally)
    requires TallyAs(table, cs)
    requires entry == if c.name in table.at then table.at[c.name] else NoTally
    ensures TallyAs(Put(table, c.name, AddTally(entry, c.kind, c.hours)), cs + [c])
  {
    var next := Put(table, c.name, AddTally(entry, c.kind, c.hours));
    assert NamesOf(cs + [c]) == NamesOf(cs) + [c.name];
    DedupSnoc(NamesOf(cs), c.name);
    assert NameAgrees(table, cs, c.name);
    if c.name !in table.at {
      TallyAbsent(cs, c.name);
    }
    forall n ensures NameAgrees(next, cs + [c], n) {
      assert NameAgrees(table, cs, n);
      TallySnoc(cs, c, n);
    }
  }

  /** The inner `forEach`: every target teacher gets the event's hours. */
  method BookTargets(table: Table<Tally>, names: seq<string>, k: Kind, dur: real, ghost before: seq<TCredit>)
    returns (r: Table<Tally>)
    requires TallyAs(table, before)
    ensures TallyAs(r, before + CreditsFor(names, k, dur))
  {
    r := table;
    ghost var own := CreditsFor(names, k, dur);
    assert before + own[..0] == before;
    for j := 0 to |names|
      invariant TallyAs(r, before + own[..j])
    {
      var c := TCredit(names[j], k, dur);
      var entry := if c.name in r.at then r.at[c.name] else NoTally;
      assert own[j] == c;
      TallyStep(r, before + own[..j], c, entry);
      r := Put(r, c.name, AddTally(entry, c.kind, c.hours));
      PrefixSnoc(before, own, j);
    }
    assert own[..|names|] == own;
  }

  /** The entries of the teacher map, in insertion order. */
  function EntriesOf(table: Table<Tally>): (r: seq<(string, Tally)>)
    requires forall n :: n in table.keys ==> n in table.at
    ensures |r| == |table.keys| && forall i :: 0 <= i < |r| ==> r[i] == (table.keys[i], table.at[table.keys[i]])
  {
    seq(|table.keys|, i requires 0 <= i < |table.keys| => (table.keys[i], table.at[table.keys[i]]))
  }

  /** The counters and the credits after one more event. */
  lemma StatsSnoc(events: seq<Enriched>, i: nat, unknown: string)
    requires i < |events|
    ensures TotalsOf(events[..i + 1]) == AddTally(TotalsOf(events[..i]), KindOf(events[i].courseType), events[i].durationHours)
    ensures AllCredits(events[..i + 1], unknown) == AllCredits(events[..i], unknown) + EventCredits(events[i], unknown)
  {
    assert events[..i + 1][..i] == events[..i];
  }

  /** The entries of a finished teacher map: teachers in order of first credit, with their counters. */
  method TeacherEntries(table: Table<Tally>, ghost cs: seq<TCredit>) returns (teachers: seq<(string, Tally)>)
    requires TallyAs(table, cs)
    ensures |teachers| == |Dedup(NamesOf(cs))|
    ensures forall i :: 0 <= i < |teachers| ==> teachers[i] == (Dedup(NamesOf(cs))[i], TallyOf(cs, teachers[i].0))
  {
    assert forall n :: n in table.keys ==> n in table.at by {
      forall n | n in table.keys ensures n in table.at {
        assert NameAgrees(table, cs, n);
      }
    }
    teachers := EntriesOf(table);
    forall i | 0 <= i < |teachers| ensures teachers[i].1 == TallyOf(cs, teachers[i].0) {
      assert NameAgrees(table, cs, table.keys[i]);
    }
  }

  /**
   * `stats`: the view's counters over the merged course events, and for
   * each credited teacher, in order of first credit, that teacher's counters.
   */
  method Stats(events: seq<Enriched>, unknown: string) returns (totals: Tally, teachers: seq<(string, Tally)>)
    ensures totals == TotalsOf(events)
    ensures |teachers| == |Dedup(NamesOf(AllCredits(events, unknown)))|
    ensures forall i :: 0 <= i < |teachers| ==>
      teachers[i] == (Dedup(NamesOf(AllCredits(events, unknown)))[i], TallyOf(AllCredits(events, unknown), teachers[i].0))
  {
    totals := NoTally;
    var table: Table<Tally> := Empty();
    assert TallyAs(table, []);
    for i := 0 to |events|
      invariant totals == TotalsOf(events[..i])
      invariant TallyAs(table, AllCredits(events[..i], unknown))
    {
      var ev := events[i];
      StatsSnoc(events, i, unknown);
      var k := KindOf(ev.courseType);
      totals := AddTally(totals, k, ev.durationHours);
      table := BookTargets(table, Targets(ev, unknown), k, ev.durationHours, AllCredits(events[..i], unknown));
    }
    assert events[..|events|] == events;
    teachers := TeacherEntries(table, AllCredits(events, unknown));
  }

  function TargetsOf(unknown: string): Enriched -> seq<string> {
    (ev: Enriched) => Targets(ev, unknown)
  }

  lemma {:induction false} CreditNames(evs: seq<Enriched>, unknown: string)
    ensures NamesOf(AllCredits(evs, unknown)) == FlatMap(evs, TargetsOf(unknown))
  {
    if evs != [] {
      var last := evs[|evs| - 1];
      CreditNames(evs[..|evs| - 1], unknown);
      NamesAppend(AllCredits(evs[..|evs| - 1], unknown), EventCredits(last, unknown));
      CreditsForNames(Targets(last, unknown), KindOf(last.courseType), last.durationHours);
    }
  }

  /** The teachers listed are exactly those some event credits. */
  lemma CreditedTeachers(evs: seq<Enriched>, unknown: string, n: string)
    ensures n in NamesOf(AllCredits(evs, unknown)) <==> exists i :: 0 <= i < |evs| && n in Targets(evs[i], unknown)
  {
    CreditNames(evs, unknown);
    FlatMapMember(evs, TargetsOf(unknown), n);
  }

  lemma NamesAppend(a: seq<TCredit>, b: seq<TCredit>)
    ensures NamesOf(a + b) == NamesOf(a) + NamesOf(b)
  {
  }

  lemma CreditsForNames(names: seq<string>, k: Kind, dur: real)
    ensures NamesOf(CreditsFor(names, k, dur)) == names
  {
  }
}
