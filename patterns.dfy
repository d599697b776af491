/**
 * The three summary patterns of the normaliser, as explicit matchers over a
 * list of alternatives for the course-type group `(CM|TD|...)`:
 *
 *   type then subject     `^\s*(TYPE)\b[\s-]+(.+)$`
 *   subject dash type     `^\s*(.+?)\s*-\s*(TYPE)\b.*$`
 *   subject then type     `^\s*(.+?)\s+(TYPE)(?:\b|\s|$)`
 *
 * all case-insensitive.  They are applied to trimmed summaries, on which the
 * leading `\s*` matches nothing.  `\s` is Unicode white space, `.` any
 * character but a line feed, and `$` the end of the text.  Each matcher comes
 * with a lemma that states what a match means: which decompositions of the
 * text exist, and which one the leftmost-first semantics of the `regex` crate
 * picks (the longest greedy run, the shortest lazy group).
 */
module SummaryPatterns {
  import opened Base
  import opened Text

  // ---------------------------------------------------------------- letters

  /**
   * Simple case folding as far as the letters of the alternatives need it:
   * ASCII and Latin-1 capitals fold to their small letter, and long s to `s`.
   */
  function FoldChar(c: char): char {
    if c == '\U{017F}' then 's' else LowerChar(c)
  }

  /** The letters the alternatives are written with: ASCII capitals and E acute. */
  predicate IsTokenLetter(c: char) {
    IsAsciiUpper(c) || c == '\U{00C9}'
  }

  /** A string of such letters only. */
  predicate TokenWord(t: string) {
    t == [] || (IsTokenLetter(t[0]) && TokenWord(t[1..]))
  }

  /** Alternatives the matchers accept: non-empty words of capitals. */
  predicate ValidAlternatives(alts: seq<string>) {
    forall m :: 0 <= m < |alts| ==> |alts[m]| >= 1 && TokenWord(alts[m])
  }

  /** Whether `s`, from position `i`, spells `t` letter by letter up to case. */
  predicate Spells(s: string, i: nat, t: string)
    decreases |t|
  {
    t == [] || (i < |s| && FoldChar(s[i]) == FoldChar(t[0]) && Spells(s, i + 1, t[1..]))
  }

  /**
   * Word characters for `\b`: ASCII letters, digits and underscore, and the
   * letters of Latin-1 and Latin Extended-A/B.
   */
  predicate IsWordChar(c: char) {
    || IsDigit(c) || IsAsciiUpper(c) || IsAsciiLower(c) || c == '_'
    || c == '\U{00AA}' || c == '\U{00B5}' || c == '\U{00BA}'
    || ('\U{00C0}' <= c <= '\U{024F}' && c != '\U{00D7}' && c != '\U{00F7}')
  }

  /** `\b` at position `j`: a word character on exactly one side of it. */
  predicate WordBoundary(s: string, j: nat) {
    (0 < j <= |s| && IsWordChar(s[j - 1])) != (j < |s| && IsWordChar(s[j]))
  }

  // ---------------------------------------------------------------- the type group

  /** Alternative `m` matches at position `i`: spelled there up to case and followed by `\b`. */
  predicate AltMatch(alts: seq<string>, s: string, i: nat, m: nat)
    requires m < |alts|
  {
    i + |alts[m]| <= |s| && Spells(s, i, alts[m]) && WordBoundary(s, i + |alts[m]|)
  }

  /**
   * The alternation `(A0|A1|...)\b` at position `i`, trying the alternatives
   * from the `n`-th on: the index of the first that matches.
   */
  function AltFrom(alts: seq<string>, s: string, i: nat, n: nat): (r: Option<nat>)
    requires n <= |alts|
    ensures r.Some? ==> n <= r.value < |alts| && i + |alts[r.value]| <= |s|
    decreases |alts| - n
  {
    if n == |alts| then None
    else if AltMatch(alts, s, i, n) then Some(n)
    else AltFrom(alts, s, i, n + 1)
  }

  /** The length of text the type group matches at position `i`, if it matches. */
  function TypeAt(alts: seq<string>, s: string, i: nat): (r: Option<nat>)
    ensures r.Some? ==> i + r.value <= |s|
  {
    match AltFrom(alts, s, i, 0)
    case Some(m) => Some(|alts[m]|)
    case None => None
  }

  // ---------------------------------------------------------------- runs

  /** `\s` (and, when `dashes`, `-`) as one character class. */
  predicate InRun(c: char, dashes: bool) {
    IsSpace(RustSpace, c) || (dashes && c == '-')
  }

  /** The length of the run of the class at position `i`. */
  function Run(s: string, i: nat, dashes: bool): (n: nat)
    ensures i <= |s| ==> i + n <= |s|
    decreases |s| - i
  {
    if i < |s| && InRun(s[i], dashes) then 1 + Run(s, i + 1, dashes) else 0
  }

  /** No line feed from position `i` on, as `.*$` and `(.+)$` need. */
  predicate LineFree(s: string, i: nat)
    decreases |s| - i
  {
    i >= |s| || (s[i] != '\n' && LineFree(s, i + 1))
  }

  // ---------------------------------------------------------------- the patterns

  /**
   * `^\s*(TYPE)\b[\s-]+(.+)$`: a type at the start, a greedy run of white
   * space and dashes, and a non-empty rest without line feed.  Yields the
   * captured type and subject.
   */
  function TypeThenSubject(alts: seq<string>, s: string): Option<(string, string)> {
    match TypeAt(alts, s, 0)
    case None => None
    case Some(j) =>
      var k := Run(s, j, true);
      if k == 0 then None
      else if j + k < |s| then (if LineFree(s, j + k) then Some((s[..j], s[j + k..])) else None)
      else if k >= 2 && s[|s| - 1] != '\n' then Some((s[..j], s[|s| - 1..]))
      else None
  }

  /** The part of a pattern that follows the lazy subject group `(.+?)`. */
  datatype Tail =
    | DashTail    // `\s*-\s*(TYPE)\b.*$`
    | SpaceTail   // `\s+(TYPE)(?:\b|\s|$)`

  /** Whether the tail matches from position `p`; if so, where its type starts and how long it is. */
  function TailAt(alts: seq<string>, tail: Tail, s: string, p: nat): (r: Option<(nat, nat)>)
    requires p <= |s|
    ensures r.Some? ==> p < r.value.0 && r.value.0 + r.value.1 <= |s|
  {
    match tail
    case DashTail =>
      var q := p + Run(s, p, false);
      if q < |s| && s[q] == '-' then
        var r := q + 1 + Run(s, q + 1, false);
        match TypeAt(alts, s, r)
        case Some(n) => if LineFree(s, r + n) then Some((r, n)) else None
        case None => None
      else None
    case SpaceTail =>
      var k := Run(s, p, false);
      if k == 0 then None
      else
        match TypeAt(alts, s, p + k)
        case Some(n) => Some((p + k, n))
        case None => None
  }

  /**
   * The lazy group `^\s*(.+?)` followed by `tail`, trying group ends from `p`
   * on: the first line-feed-free prefix after which the tail matches.  Yields
   * the captured type and subject.
   */
  function LazyFrom(alts: seq<string>, tail: Tail, s: string, p: nat): Option<(string, string)>
    requires 1 <= p <= |s|
    decreases |s| - p
  {
    if s[p - 1] == '\n' then None
    else
      match TailAt(alts, tail, s, p)
      case Some((r, n)) => Some((s[r..r + n], s[..p]))
      case None => if p < |s| then LazyFrom(alts, tail, s, p + 1) else None
  }

  function SubjectThen(alts: seq<string>, tail: Tail, s: string): Option<(string, string)> {
    if s == [] then None else LazyFrom(alts, tail, s, 1)
  }

  /**
   * The ordered rules: type then subject, then subject-dash-type, then
   * subject then type; the first that matches decides, and otherwise the type
   * is `Autre` and the subject the whole summary.
   */
  function Classify(alts: seq<string>, summary: string): (string, string) {
    match TypeThenSubject(alts, summary)
    case Some(m) => m
    case None =>
      match SubjectThen(alts, DashTail, summary)
      case Some(m) => m
      case None =>
        match SubjectThen(alts, SpaceTail, summary)
        case Some(m) => m
        case None => ("Autre", summary)
  }

  // ---------------------------------------------------------------- the type group, declaratively

  lemma {:induction false} SpellsIff(s: string, i: nat, t: string)
    requires i <= |s|
    ensures Spells(s, i, t) <==>
      i + |t| <= |s| && forall k :: 0 <= k < |t| ==> FoldChar(s[i + k]) == FoldChar(t[k])
    decreases |t|
  {
    if t != [] && i < |s| {
      SpellsIff(s, i + 1, t[1..]);
      if i + |t| <= |s| && forall k :: 0 <= k < |t| ==> FoldChar(s[i + k]) == FoldChar(t[k]) {
        forall k | 0 <= k < |t| - 1
          ensures FoldChar(s[i + 1 + k]) == FoldChar(t[1..][k])
        {
          assert FoldChar(s[i + (k + 1)]) == FoldChar(t[k + 1]);
        }
        assert FoldChar(s[i + 0]) == FoldChar(t[0]);
      }
      if Spells(s, i, t) {
        forall k | 0 <= k < |t|
          ensures FoldChar(s[i + k]) == FoldChar(t[k])
        {
          if k > 0 {
            assert FoldChar(s[i + 1 + (k - 1)]) == FoldChar(t[1..][k - 1]);
          }
        }
      }
    }
  }

  /** A character that folds like a capital letter of an alternative upper-cases to it. */
  lemma FoldUpper(c: char, t: char)
    requires IsTokenLetter(t) && FoldChar(c) == FoldChar(t)
    ensures UpperChar(c) == t
  {
  }

  /** Where `s` spells a word of capitals, the spelled text upper-cases to that word. */
  lemma {:induction false} SpelledUpper(s: string, i: nat, t: string)
    requires i + |t| <= |s| && Spells(s, i, t) && TokenWord(t)
    ensures Upper(s[i..i + |t|]) == t
    decreases |t|
  {
    if t != [] {
      SpelledUpper(s, i + 1, t[1..]);
      FoldUpper(s[i], t[0]);
      assert Upper(s[i..i + |t|]) == [UpperChar(s[i])] + Upper(s[i + 1..i + 1 + |t[1..]|]);
    }
  }

  /** A character that upper-cases to a capital is not white space, a dash or a line feed. */
  lemma LetterNotSpace(c: char)
    requires IsTokenLetter(UpperChar(c))
    ensures !IsSpace(RustSpace, c) && c != '-' && c != '\n'
  {
  }

  lemma {:induction false} AltFromSpec(alts: seq<string>, s: string, i: nat, n: nat)
    requires n <= |alts|
    ensures AltFrom(alts, s, i, n).Some? <==> exists m :: n <= m < |alts| && AltMatch(alts, s, i, m)
    ensures AltFrom(alts, s, i, n).Some? ==> AltMatch(alts, s, i, AltFrom(alts, s, i, n).value)
    ensures AltFrom(alts, s, i, n).Some? ==>
      forall m :: n <= m < AltFrom(alts, s, i, n).value ==> !AltMatch(alts, s, i, m)
    decreases |alts| - n
  {
    if n < |alts| {
      AltFromSpec(alts, s, i, n + 1);
    }
  }

  /** One of the alternatives, up to case. */
  predicate IsAlternative(alts: seq<string>, t: string) {
    exists m :: 0 <= m < |alts| && t == alts[m]
  }

  /**
   * The type group matches at `i` exactly when some alternative is spelled
   * there up to case and ends at a word boundary; the matched text, upper-cased,
   * is that alternative, and it does not start with white space or a dash.
   */
  lemma TypeAtSpec(alts: seq<string>, s: string, i: nat)
    requires ValidAlternatives(alts)
    ensures TypeAt(alts, s, i).Some? <==> exists m :: 0 <= m < |alts| && AltMatch(alts, s, i, m)
    ensures TypeAt(alts, s, i).Some? ==>
      var n := TypeAt(alts, s, i).value;
      && n >= 1 && IsAlternative(alts, Upper(s[i..i + n]))
      && !IsSpace(RustSpace, s[i]) && s[i] != '-' && s[i] != '\n'
  {
    AltFromSpec(alts, s, i, 0);
    if TypeAt(alts, s, i).Some? {
      var m := AltFrom(alts, s, i, 0).value;
      var t := alts[m];
      assert Upper(s[i..i + |t|]) == t by { SpelledUpper(s, i, t); }
      assert IsTokenLetter(UpperChar(s[i])) by {
        assert Upper(s[i..i + |t|])[0] == UpperChar(s[i]);
      }
      LetterNotSpace(s[i]);
    }
  }

  // ---------------------------------------------------------------- runs, declaratively

  lemma {:induction false} RunSpec(s: string, i: nat, dashes: bool)
    requires i <= |s|
    ensures forall k :: i <= k < i + Run(s, i, dashes) ==> InRun(s[k], dashes)
    ensures i + Run(s, i, dashes) == |s| || !InRun(s[i + Run(s, i, dashes)], dashes)
    decreases |s| - i
  {
    if i < |s| && InRun(s[i], dashes) {
      RunSpec(s, i + 1, dashes);
    }
  }

  /** A run ends at the first character outside its class. */
  lemma RunUnique(s: string, i: nat, dashes: bool, j: nat)
    requires i <= j <= |s| && forall k :: i <= k < j ==> InRun(s[k], dashes)
    requires j == |s| || !InRun(s[j], dashes)
    ensures j == i + Run(s, i, dashes)
  {
    RunSpec(s, i, dashes);
  }

  /** No occurrence of `c` from position `i` on. */
  predicate CharFree(s: string, i: nat, c: char)
    decreases |s| - i
  {
    i >= |s| || (s[i] != c && CharFree(s, i + 1, c))
  }

  lemma {:induction false} CharFreeIff(s: string, i: nat, c: char)
    ensures CharFree(s, i, c) <==> forall k :: i <= k < |s| ==> s[k] != c
    decreases |s| - i
  {
    if i < |s| {
      CharFreeIff(s, i + 1, c);
    }
  }

  lemma {:induction false} LineFreeIff(s: string, i: nat)
    ensures LineFree(s, i) <==> forall k :: i <= k < |s| ==> s[k] != '\n'
    decreases |s| - i
  {
    if i < |s| {
      LineFreeIff(s, i + 1);
    }
  }

  // ---------------------------------------------------------------- the patterns, declaratively

  /** `[\s-]+(.+)$` read as the run `s[j..a]` of white space and dashes and the rest `s[a..]`. */
  predicate RestSplit(s: string, j: nat, a: nat) {
    && j < a < |s|
    && (forall k :: j <= k < a ==> InRun(s[k], true))
    && (forall k :: a <= k < |s| ==> s[k] != '\n')
  }

  /**
   * The first pattern matches exactly when a type opens the text and the rest
   * splits as `[\s-]+(.+)$`; the subject captured is the rest after the
   * longest such run.
   */
  lemma TypeThenSubjectSpec(alts: seq<string>, s: string)
    ensures TypeThenSubject(alts, s).Some? <==>
      TypeAt(alts, s, 0).Some? && exists a :: RestSplit(s, TypeAt(alts, s, 0).value, a)
    ensures TypeThenSubject(alts, s).Some? ==>
      var ty := TypeThenSubject(alts, s).value.0;
      var sub := TypeThenSubject(alts, s).value.1;
      var a: int := |s| - |sub|;
      && TypeAt(alts, s, 0) == Some(|ty|) && ty == s[..|ty|] && 0 <= a && sub == s[a..]
      && RestSplit(s, |ty|, a) && forall b: nat :: RestSplit(s, |ty|, b) ==> b <= a
  {
    if TypeAt(alts, s, 0).Some? {
      var j := TypeAt(alts, s, 0).value;
      var k := Run(s, j, true);
      RunSpec(s, j, true);
      LineFreeIff(s, j + k);
      assert forall b: nat :: RestSplit(s, j, b) ==> b <= j + k;
      if 0 < k && j + k < |s| && LineFree(s, j + k) {
        assert RestSplit(s, j, j + k);
      } else if j + k == |s| && k >= 2 && s[|s| - 1] != '\n' {
        assert RestSplit(s, j, |s| - 1);
      }
    }
  }

  /** `\s*-\s*` as white space `s[p..q]`, a dash at `q` and white space up to `r`. */
  predicate DashAround(s: string, p: nat, q: nat, r: nat) {
    && p <= q < r <= |s| && s[q] == '-'
    && (forall k :: p <= k < q ==> IsSpace(RustSpace, s[k]))
    && (forall k :: q < k < r ==> IsSpace(RustSpace, s[k]))
  }

  /** The shape of a tail from `p`, with its type at `r`, `n` characters long. */
  ghost predicate TailParts(alts: seq<string>, tail: Tail, s: string, p: nat, r: nat, n: nat) {
    match tail
    case DashTail =>
      (exists q: nat :: DashAround(s, p, q, r)) && TypeAt(alts, s, r) == Some(n) && LineFree(s, r + n)
    case SpaceTail =>
      p < r <= |s| && (forall k :: p <= k < r ==> IsSpace(RustSpace, s[k])) && TypeAt(alts, s, r) == Some(n)
  }

  /** What the tail matcher finds has the tail's shape. */
  lemma TailAtParts(alts: seq<string>, tail: Tail, s: string, p: nat)
    requires p <= |s| && TailAt(alts, tail, s, p).Some?
    ensures TailParts(alts, tail, s, p, TailAt(alts, tail, s, p).value.0, TailAt(alts, tail, s, p).value.1)
  {
    RunSpec(s, p, false);
    var q := p + Run(s, p, false);
    if tail == DashTail {
      RunSpec(s, q + 1, false);
      assert DashAround(s, p, q, TailAt(alts, tail, s, p).value.0);
    }
  }

  /** A text with the tail's shape is found by the tail matcher, with the same type. */
  lemma PartsTailAt(alts: seq<string>, tail: Tail, s: string, p: nat, r: nat, n: nat)
    requires ValidAlternatives(alts)
    requires p <= |s| && TailParts(alts, tail, s, p, r, n)
    ensures TailAt(alts, tail, s, p) == Some((r, n))
  {
    TypeAtStart(alts, s, r);
    if tail == DashTail {
      var q: nat :| DashAround(s, p, q, r);
      DashAroundRuns(s, p, q, r);
    } else {
      RunUnique(s, p, false, r);
    }
  }

  /** A type never starts on white space, a dash or a line feed. */
  lemma TypeAtStart(alts: seq<string>, s: string, i: nat)
    requires ValidAlternatives(alts) && TypeAt(alts, s, i).Some?
    ensures i < |s| && !IsSpace(RustSpace, s[i]) && s[i] != '-' && s[i] != '\n'
  {
    TypeAtSpec(alts, s, i);
  }

  /** White space around a dash is exactly the two runs the dash tail skips. */
  lemma DashAroundRuns(s: string, p: nat, q: nat, r: nat)
    requires DashAround(s, p, q, r) && (r == |s| || !InRun(s[r], false))
    ensures q == p + Run(s, p, false) && r == q + 1 + Run(s, q + 1, false)
  {
    RunUnique(s, p, false, q);
    RunUnique(s, q + 1, false, r);
  }

  /** The subject group `(.+?)` can end at `p` and be followed by the tail. */
  predicate LazyMatch(alts: seq<string>, tail: Tail, s: string, p: nat) {
    1 <= p <= |s| && (forall k :: 0 <= k < p ==> s[k] != '\n') && TailAt(alts, tail, s, p).Some?
  }

  /** The lazy search from `p` succeeds exactly when some end `q >= p` can be followed by the tail. */
  ghost predicate LazyFound(alts: seq<string>, tail: Tail, s: string, p: nat)
    requires 1 <= p <= |s|
  {
    LazyFrom(alts, tail, s, p).Some? <==> exists q: nat :: p <= q && LazyMatch(alts, tail, s, q)
  }

  /** What the lazy search from `p` finds is the shortest such prefix, with the type after it. */
  ghost predicate LazyShortest(alts: seq<string>, tail: Tail, s: string, p: nat)
    requires 1 <= p <= |s|
  {
    LazyFrom(alts, tail, s, p).Some? ==>
      var sub := LazyFrom(alts, tail, s, p).value.1;
      && p <= |sub| && LazyMatch(alts, tail, s, |sub|) && sub == s[..|sub|]
      && LazyFrom(alts, tail, s, p).value.0 == TailText(alts, tail, s, |sub|)
      && forall q: nat :: p <= q < |sub| ==> !LazyMatch(alts, tail, s, q)
  }

  /** Skipping an end `p` where no tail starts keeps both facts from `p + 1`. */
  lemma LazySkip(alts: seq<string>, tail: Tail, s: string, p: nat)
    requires 1 <= p < |s| && forall k :: 0 <= k < p ==> s[k] != '\n'
    requires TailAt(alts, tail, s, p).None?
    requires LazyFound(alts, tail, s, p + 1) && LazyShortest(alts, tail, s, p + 1)
    ensures LazyFound(alts, tail, s, p) && LazyShortest(alts, tail, s, p)
  {
    assert !LazyMatch(alts, tail, s, p);
    assert LazyFrom(alts, tail, s, p) == LazyFrom(alts, tail, s, p + 1);
    if exists q: nat :: p <= q && LazyMatch(alts, tail, s, q) {
      var q: nat :| p <= q && LazyMatch(alts, tail, s, q);
      assert p + 1 <= q;
    }
    if LazyFrom(alts, tail, s, p).Some? {
      var sub := LazyFrom(alts, tail, s, p + 1).value.1;
      forall q: nat | p <= q < |sub|
        ensures !LazyMatch(alts, tail, s, q)
      {
        if q != p {
          assert p + 1 <= q < |sub|;
        }
      }
    }
  }

  /** The lazy search from `p` finds the shortest line-feed-free prefix the tail can follow. */
  lemma {:induction false} LazyFromSpec(alts: seq<string>, tail: Tail, s: string, p: nat)
    requires 1 <= p <= |s| && forall k :: 0 <= k < p - 1 ==> s[k] != '\n'
    ensures LazyFound(alts, tail, s, p) && LazyShortest(alts, tail, s, p)
    decreases |s| - p
  {
    if s[p - 1] == '\n' {
      forall q: nat | p <= q
        ensures !LazyMatch(alts, tail, s, q)
      {
        if q <= |s| && p - 1 < q {
          assert s[p - 1] == '\n';
        }
      }
    } else {
      assert forall k :: 0 <= k < p ==> s[k] != '\n';
      match TailAt(alts, tail, s, p)
      case Some(t) =>
        assert LazyFrom(alts, tail, s, p) == Some((s[t.0..t.0 + t.1], s[..p]));
        assert LazyMatch(alts, tail, s, p);
      case None =>
        if p < |s| {
          LazyFromSpec(alts, tail, s, p + 1);
          LazySkip(alts, tail, s, p);
        } else {
          assert !LazyMatch(alts, tail, s, p);
          assert LazyFrom(alts, tail, s, p).None?;
          forall q: nat | p <= q
            ensures !LazyMatch(alts, tail, s, q)
          {
          }
        }
    }
  }

  /** The type text the tail finds after a subject ending at `p`. */
  function TailText(alts: seq<string>, tail: Tail, s: string, p: nat): string
    requires p <= |s| && TailAt(alts, tail, s, p).Some?
  {
    var t := TailAt(alts, tail, s, p).value;
    s[t.0..t.0 + t.1]
  }

  /**
   * A pattern `^\s*(.+?)` + tail matches exactly when some line-feed-free
   * prefix can be followed by the tail; the subject captured is the shortest
   * such prefix, and the type what the tail finds after it.
   */
  lemma SubjectThenSpec(alts: seq<string>, tail: Tail, s: string)
    ensures SubjectThen(alts, tail, s).Some? <==> exists q: nat :: LazyMatch(alts, tail, s, q)
    ensures SubjectThen(alts, tail, s).Some? ==>
      var sub := SubjectThen(alts, tail, s).value.1;
      && LazyMatch(alts, tail, s, |sub|) && sub == s[..|sub|]
      && SubjectThen(alts, tail, s).value.0 == TailText(alts, tail, s, |sub|)
      && forall q: nat :: q < |sub| ==> !LazyMatch(alts, tail, s, q)
  {
    if s != [] {
      LazyFromSpec(alts, tail, s, 1);
    }
  }

  /** The type a lazy pattern captures upper-cases to an alternative. */
  lemma {:induction false} LazyFromType(alts: seq<string>, tail: Tail, s: string, p: nat)
    requires ValidAlternatives(alts)
    requires 1 <= p <= |s| && LazyFrom(alts, tail, s, p).Some?
    ensures IsAlternative(alts, Upper(LazyFrom(alts, tail, s, p).value.0))
    decreases |s| - p
  {
    match TailAt(alts, tail, s, p)
    case Some((r, n)) =>
      TailAtParts(alts, tail, s, p);
      TypeAtSpec(alts, s, r);
    case None =>
      LazyFromType(alts, tail, s, p + 1);
  }

  /**
   * The type `Classify` finds upper-cases to one of the alternatives, or to
   * `AUTRE` exactly when none of the three patterns matches, and then the
   * subject is the whole summary.
   */
  lemma ClassifyType(alts: seq<string>, s: string)
    requires ValidAlternatives(alts) && !IsAlternative(alts, "AUTRE")
    ensures IsAlternative(alts, Upper(Classify(alts, s).0)) || Upper(Classify(alts, s).0) == "AUTRE"
    ensures Upper(Classify(alts, s).0) == "AUTRE" <==>
      && TypeThenSubject(alts, s).None?
      && SubjectThen(alts, DashTail, s).None?
      && SubjectThen(alts, SpaceTail, s).None?
    ensures Upper(Classify(alts, s).0) == "AUTRE" ==> Classify(alts, s).1 == s
  {
    if TypeThenSubject(alts, s).Some? {
      TypeAtSpec(alts, s, 0);
    } else if SubjectThen(alts, DashTail, s).Some? {
      LazyFromType(alts, DashTail, s, 1);
    } else if SubjectThen(alts, SpaceTail, s).Some? {
      LazyFromType(alts, SpaceTail, s, 1);
    } else {
      assert Upper("Autre") == "AUTRE";
    }
  }

  /**
   * On a trimmed, non-empty summary every rule captures a subject that is not
   * blank: it starts, or for the first rule ends or starts, with a character
   * that is not white space.
   */
  lemma ClassifySubject(alts: seq<string>, s: string)
    requires ValidAlternatives(alts)
    requires s != [] && IsTrimmed(RustSpace, s)
    ensures Trim(RustSpace, Classify(alts, s).1) != []
  {
    if TypeThenSubject(alts, s).Some? {
      var j := TypeAt(alts, s, 0).value;
      var k := Run(s, j, true);
      RunSpec(s, j, true);
      var sub := TypeThenSubject(alts, s).value.1;
      if j + k < |s| {
        TrimNonEmpty(RustSpace, sub, 0);
      } else {
        TrimNonEmpty(RustSpace, sub, 0);
      }
    } else if SubjectThen(alts, DashTail, s).Some? {
      SubjectThenSpec(alts, DashTail, s);
      TrimNonEmpty(RustSpace, SubjectThen(alts, DashTail, s).value.1, 0);
    } else if SubjectThen(alts, SpaceTail, s).Some? {
      SubjectThenSpec(alts, SpaceTail, s);
      TrimNonEmpty(RustSpace, SubjectThen(alts, SpaceTail, s).value.1, 0);
    } else {
      TrimNonEmpty(RustSpace, s, 0);
    }
  }

  // ---------------------------------------------------------------- stepping through the lazy group

  /** A text without a dash never matches the subject-dash-type pattern. */
  lemma NoDashNoDashRule(alts: seq<string>, s: string)
    requires CharFree(s, 0, '-')
    ensures SubjectThen(alts, DashTail, s).None?
  {
    CharFreeIff(s, 0, '-');
    SubjectThenSpec(alts, DashTail, s);
  }

  /** The subject-then-type tail needs white space where it starts. */
  lemma SpaceTailNone(alts: seq<string>, s: string, p: nat)
    requires p <= |s| && (p == |s| || !IsSpace(RustSpace, s[p]))
    ensures TailAt(alts, SpaceTail, s, p).None?
  {
  }

  /** The dash tail needs white space or a dash where it starts. */
  lemma DashTailNone(alts: seq<string>, s: string, p: nat)
    requires p <= |s| && (p == |s| || (!IsSpace(RustSpace, s[p]) && s[p] != '-'))
    ensures TailAt(alts, DashTail, s, p).None?
  {
  }

  /** The dash tail fails when its white space is not followed by a dash. */
  lemma DashTailNoDash(alts: seq<string>, s: string, p: nat, q: nat)
    requires p <= |s| && q == p + Run(s, p, false) && (q == |s| || s[q] != '-')
    ensures TailAt(alts, DashTail, s, p).None?
  {
  }

  /** The dash tail fails when no type follows the dash and its white space. */
  lemma DashTailNoType(alts: seq<string>, s: string, p: nat, q: nat, r: nat)
    requires p <= q < |s| && q == p + Run(s, p, false) && s[q] == '-'
    requires r == q + 1 + Run(s, q + 1, false) && TypeAt(alts, s, r).None?
    ensures TailAt(alts, DashTail, s, p).None?
  {
  }

  /** The subject-then-type tail fails when no type follows its white space. */
  lemma SpaceTailNoType(alts: seq<string>, s: string, p: nat, r: nat)
    requires p <= |s| && r == p + Run(s, p, false) && TypeAt(alts, s, r).None?
    ensures TailAt(alts, SpaceTail, s, p).None?
  {
  }

  /** The subject-then-type tail matches when a type follows its white space. */
  lemma SpaceTailType(alts: seq<string>, s: string, p: nat, r: nat, n: nat)
    requires p <= |s| && r == p + Run(s, p, false) && r > p && TypeAt(alts, s, r) == Some(n)
    ensures TailAt(alts, SpaceTail, s, p) == Some((r, n))
  {
  }

  /** A group end after which the tail fails passes the search on to the next one. */
  lemma LazyStep(alts: seq<string>, tail: Tail, s: string, p: nat)
    requires 1 <= p < |s| && s[p - 1] != '\n' && TailAt(alts, tail, s, p).None?
    ensures LazyFrom(alts, tail, s, p) == LazyFrom(alts, tail, s, p + 1)
  {
  }

  /** At the last group end a failing tail ends the search without a match. */
  lemma LazyLast(alts: seq<string>, tail: Tail, s: string)
    requires |s| >= 1 && TailAt(alts, tail, s, |s|).None?
    ensures LazyFrom(alts, tail, s, |s|).None?
  {
  }

  /** A group end after which the tail matches decides the search. */
  lemma LazyHit(alts: seq<string>, tail: Tail, s: string, p: nat, r: nat, n: nat)
    requires 1 <= p <= |s| && s[p - 1] != '\n' && TailAt(alts, tail, s, p) == Some((r, n))
    ensures LazyFrom(alts, tail, s, p) == Some((s[r..r + n], s[..p]))
  {
  }
}
