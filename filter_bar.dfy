/**
 * The search box of the filter bar (`FilterBar.tsx`): its autocompletion list
 * holds the first twenty distinct non-empty subjects met in event order,
 * sorted.
 */
module FilterBar {
  import opened Lists
  import opened Text
  import opened FrontendTypes

  /** `limit`: the most suggestions offered. */
  const Limit: nat := 20

  /** The events' non-empty subjects, in event order and with repeats. */
  function Subjects(events: seq<Event>): (r: seq<string>)
    ensures forall x :: x in r ==> x != ""
  {
    if events == [] then []
    else
      var s := events[|events| - 1].subject;
      Subjects(events[..|events| - 1]) + (if s != "" then [s] else [])
  }

  /** A subject is listed exactly when some event carries it and it is not empty. */
  lemma {:induction false} SubjectsMembers(events: seq<Event>)
    ensures forall x :: x in Subjects(events) <==> exists i :: 0 <= i < |events| && events[i].subject == x && x != ""
  {
    if events != [] {
      var init := events[..|events| - 1];
      SubjectsMembers(init);
      assert forall i :: 0 <= i < |init| ==> init[i] == events[i];
    }
  }

  /** Subjects of consecutive runs of events are the runs of their subjects. */
  lemma {:induction false} SubjectsAppend(a: seq<Event>, b: seq<Event>)
    ensures Subjects(a + b) == Subjects(a) + Subjects(b)
    decreases |b|
  {
    if b == [] {
      assert a + b == a;
    } else {
      var b0 := b[..|b| - 1];
      assert (a + b)[..|a + b| - 1] == a + b0;
      SubjectsAppend(a, b0);
    }
  }

  /** The suggestions the bar should offer: the first `Limit` distinct subjects, in event order. */
  function FirstDistinct(events: seq<Event>): seq<string> {
    var d := Dedup(Subjects(events));
    if |d| <= Limit then d else d[..Limit]
  }

  /** The distinct subjects of the first `i` events, in order of first appearance. */
  function Collected(events: seq<Event>, i: nat): seq<string>
    requires i <= |events|
  {
    Dedup(Subjects(events[..i]))
  }

  /** One more event adds its subject, when it has one. */
  lemma SubjectsSnoc(events: seq<Event>, i: nat)
    requires i < |events|
    ensures var s := events[i].subject;
      Subjects(events[..i + 1]) == Subjects(events[..i]) + (if s != "" then [s] else [])
  {
    assert events[..i + 1][..i] == events[..i];
  }

  /** The distinct subjects grow by the next event's subject exactly when it is new and non-empty. */
  lemma DistinctStep(events: seq<Event>, i: nat, d: seq<string>, next: seq<string>)
    requires i < |events| && d == Collected(events, i)
    requires var s := events[i].subject; next == if s != "" && s !in d then d + [s] else d
    ensures next == Collected(events, i + 1)
  {
    var s := events[i].subject;
    var t := Subjects(events[..i]);
    SubjectsSnoc(events, i);
    if s != "" {
      DedupSnoc(t, s);
    } else {
      assert t + [] == t;
    }
  }

  /** Once `Limit` distinct subjects have been met, they are the first `Limit` of all events. */
  lemma FullPrefix(events: seq<Event>, i: nat)
    requires i <= |events| && |Collected(events, i)| == Limit
    ensures FirstDistinct(events) == Collected(events, i)
  {
    assert events == events[..i] + events[i..];
    SubjectsAppend(events[..i], events[i..]);
    DedupExtends(Subjects(events[..i]), Subjects(events[i..]));
  }

  /** The first `i` events leave room: before each of them fewer than `Limit` subjects were collected. */
  predicate Unfilled(events: seq<Event>, i: nat)
    requires i <= |events|
  {
    forall j :: 0 <= j < i ==> |Collected(events, j)| < Limit
  }

  /**
   * The loop of `suggestions`: walks the events, collecting new non-empty
   * subjects, and stops as soon as `Limit` have been collected.  `visited` is
   * the number of events looked at.
   */
  method Collect(events: seq<Event>) returns (subjects: seq<string>, ghost visited: nat)
    ensures subjects == FirstDistinct(events)
    ensures visited <= |events| && subjects == Collected(events, visited)
    ensures visited < |events| ==> |subjects| == Limit
    ensures Unfilled(events, visited)
  {
    subjects := [];
    var i := 0;
    while i < |events|
      invariant 0 <= i <= |events|
      invariant subjects == Collected(events, i)
      invariant |subjects| <= Limit
      invariant i == 0 || |Collected(events, i - 1)| < Limit
    {
      if |subjects| >= Limit {
        break;
      }
      var s := events[i].subject;
      var next := if s != "" && s !in subjects then subjects + [s] else subjects;
      CollectStep(events, i, subjects, next);
      subjects := next;
      i := i + 1;
    }
    CollectExit(events, i, subjects);
    LastBelowLimit(events, i);
    visited := i;
  }

  /** One turn of the loop keeps its invariants. */
  lemma CollectStep(events: seq<Event>, i: nat, subjects: seq<string>, next: seq<string>)
    requires i < |events| && subjects == Collected(events, i) && |subjects| < Limit
    requires var s := events[i].subject; next == if s != "" && s !in subjects then subjects + [s] else subjects
    ensures next == Collected(events, i + 1) && |next| <= Limit
  {
    DistinctStep(events, i, subjects, next);
  }

  /** More events never collect fewer subjects. */
  lemma CollectedGrows(events: seq<Event>, j: nat, k: nat)
    requires j <= k <= |events|
    ensures |Collected(events, j)| <= |Collected(events, k)|
  {
    assert events[..k] == events[..j] + events[j..k];
    SubjectsAppend(events[..j], events[j..k]);
    DedupExtends(Subjects(events[..j]), Subjects(events[j..k]));
  }

  /** Below the limit before the last event looked at means below it before every earlier one. */
  lemma LastBelowLimit(events: seq<Event>, i: nat)
    requires i <= |events| && (i == 0 || |Collected(events, i - 1)| < Limit)
    ensures Unfilled(events, i)
  {
    forall j | 0 <= j < i
      ensures |Collected(events, j)| < Limit
    {
      CollectedGrows(events, j, i - 1);
    }
  }

  /** Where the loop stops, what it collected is what the bar should offer. */
  lemma CollectExit(events: seq<Event>, i: nat, subjects: seq<string>)
    requires i <= |events| && subjects == Collected(events, i) && |subjects| <= Limit
    requires i < |events| ==> |subjects| >= Limit
    ensures subjects == FirstDistinct(events)
  {
    if i < |events| {
      FullPrefix(events, i);
    } else {
      assert events[..i] == events;
    }
  }

  /** `suggestions`: the collected subjects, sorted. */
  method Suggestions(events: seq<Event>) returns (r: seq<string>)
    ensures SortedBy(r, StrLe) && multiset(r) == multiset(FirstDistinct(events))
  {
    var subjects, visited := Collect(events);
    StrLeTotalPreorder();
    r := SortBy(subjects, StrLe);
  }

  /**
   * What is offered: at most `Limit` subjects, each once, each the non-empty
   * subject of some event, taken in order of first appearance; with fewer
   * than `Limit` distinct subjects, all of them.
   */
  lemma FirstDistinctFacts(events: seq<Event>)
    ensures |FirstDistinct(events)| <= Limit && NoDup(FirstDistinct(events))
    ensures FirstDistinct(events) <= Dedup(Subjects(events))
    ensures forall x :: x in FirstDistinct(events) ==>
      x != "" && exists i :: 0 <= i < |events| && events[i].subject == x
    ensures |Dedup(Subjects(events))| <= Limit ==>
      forall i :: 0 <= i < |events| && events[i].subject != "" ==> events[i].subject in FirstDistinct(events)
  {
    var d := Dedup(Subjects(events));
    SubjectsMembers(events);
    if |d| > Limit {
      forall x | x in d[..Limit] ensures x in d {
      }
    }
  }

  /** The suggestions come without repeats and none is empty. */
  lemma SuggestionsDistinct(r: seq<string>, events: seq<Event>)
    requires multiset(r) == multiset(FirstDistinct(events))
    ensures NoDup(r) && |r| <= Limit
    ensures forall x :: x in r ==> x != "" && exists i :: 0 <= i < |events| && events[i].subject == x
  {
    FirstDistinctFacts(events);
    NoDupPermutation(FirstDistinct(events), r);
    SameMembers(FirstDistinct(events), r);
    assert |r| == |multiset(r)|;
  }
}
