/**
 * String helpers with the semantics of the Rust standard library and of the
 * JavaScript string methods that the core relies on: white space, trimming,
 * ASCII/Latin-1 case mapping, search, split/join, replace-all and decimal digits.
 */
module Text {
  import opened Base
  import opened Lists

  /** Which definition of white space applies: Rust's `char::is_whitespace` or JavaScript's `\s`/`trim`. */
  datatype Space = RustSpace | JsSpace

  predicate IsSpace(w: Space, c: char) {
    || c == ' ' || ('\t' <= c <= '\r') || c == '\U{00A0}' || c == '\U{1680}'
    || ('\U{2000}' <= c <= '\U{200A}') || c == '\U{2028}' || c == '\U{2029}'
    || c == '\U{202F}' || c == '\U{205F}' || c == '\U{3000}'
    || (w == RustSpace && c == '\U{0085}')
    || (w == JsSpace && c == '\U{FEFF}')
  }

  predicate IsTrimmed(w: Space, s: string) {
    s == [] || (!IsSpace(w, s[0]) && !IsSpace(w, s[|s| - 1]))
  }

  /** Every character of `s[i..j]` is white space. */
  predicate AllSpace(w: Space, s: string, i: int, j: int) {
    forall k :: i <= k < j && 0 <= k < |s| ==> IsSpace(w, s[k])
  }

  /** The first index at or after `lo` that does not hold white space (or `|s|`). */
  function SkipSpace(w: Space, s: string, lo: nat): (l: nat)
    requires lo <= |s|
    ensures lo <= l <= |s| && AllSpace(w, s, lo, l)
    ensures l < |s| ==> !IsSpace(w, s[l])
    decreases |s| - lo
  {
    if lo < |s| && IsSpace(w, s[lo]) then SkipSpace(w, s, lo + 1) else lo
  }

  /** The end of `s[lo..hi]` once the white space before `hi` is dropped. */
  function SkipSpaceBack(w: Space, s: string, lo: nat, hi: nat): (h: nat)
    requires lo <= hi <= |s|
    ensures lo <= h <= hi && AllSpace(w, s, h, hi)
    ensures lo < h ==> !IsSpace(w, s[h - 1])
    decreases hi
  {
    if lo < hi && IsSpace(w, s[hi - 1]) then SkipSpaceBack(w, s, lo, hi - 1) else hi
  }

  /** Where the trimmed text starts in `s`. */
  function TrimOffset(w: Space, s: string): (k: nat)
    ensures k <= |s|
  {
    SkipSpace(w, s, 0)
  }

  /** `str::trim_start` / `String.prototype.trimStart`: `s` without its leading white space. */
  function TrimStart(w: Space, s: string): (r: string)
    ensures |r| <= |s| && r == s[|s| - |r|..]
    ensures r == [] || !IsSpace(w, r[0])
    ensures AllSpace(w, s, 0, |s| - |r|)
  {
    s[TrimOffset(w, s)..]
  }

  /**
   * `str::trim` / `String.prototype.trim`: the longest infix of `s` that neither
   * starts nor ends with white space, obtained by dropping white space only.
   */
  function Trim(w: Space, s: string): (r: string)
    ensures IsTrimmed(w, r)
    ensures var k := TrimOffset(w, s);
      k + |r| <= |s| && r == s[k..k + |r|] && AllSpace(w, s, 0, k) && AllSpace(w, s, k + |r|, |s|)
  {
    var k := TrimOffset(w, s);
    s[k..SkipSpaceBack(w, s, k, |s|)]
  }

  /** Trimming a string that is already trimmed changes nothing; so trimming is idempotent. */
  lemma TrimTrimmed(w: Space, s: string)
    requires IsTrimmed(w, s)
    ensures Trim(w, s) == s
  {
    if s != [] {
      assert TrimOffset(w, s) == 0;
      assert SkipSpaceBack(w, s, 0, |s|) == |s|;
    }
  }

  /** A string of white space only trims to the empty string, and only such strings do. */
  lemma TrimEmpty(w: Space, s: string)
    ensures Trim(w, s) == [] <==> forall i :: 0 <= i < |s| ==> IsSpace(w, s[i])
  {
    var k := TrimOffset(w, s);
    if Trim(w, s) == [] {
      assert AllSpace(w, s, 0, k) && AllSpace(w, s, k, |s|);
    }
  }
  /**
   * Trimming is determined by its specification: a trimmed infix with only
   * white space around it is the trim of the whole string.
   */
  lemma TrimUnique(w: Space, s: string, k: nat, r: string)
    requires k + |r| <= |s| && r == s[k..k + |r|] && IsTrimmed(w, r)
    requires AllSpace(w, s, 0, k) && AllSpace(w, s, k + |r|, |s|)
    ensures Trim(w, s) == r
  {
    var t := Trim(w, s);
    var k2 := TrimOffset(w, s);
    TrimEmpty(w, s);
    if r == [] {
      assert forall i :: 0 <= i < |s| ==> IsSpace(w, s[i]) by {
        forall i | 0 <= i < |s| ensures IsSpace(w, s[i]) {
          assert i < k || k + |r| <= i;
        }
      }
    } else {
      assert s[k] == r[0];
      assert t != [];
      assert s[k2] == t[0];
      assert k == k2;
      assert s[k + |r| - 1] == r[|r| - 1] && s[k2 + |t| - 1] == t[|t| - 1];
      assert |r| == |t|;
    }
  }

  /** White space at the end of a string does not change its trim. */
  lemma TrimTrailing(w: Space, s: string, c: char)
    requires IsSpace(w, c)
    ensures Trim(w, s + [c]) == Trim(w, s)
  {
    var k := TrimOffset(w, s);
    var r := Trim(w, s);
    assert (s + [c])[k..k + |r|] == s[k..k + |r|];
    TrimUnique(w, s + [c], k, r);
  }

  /** A string holding a character not in the white-space set does not trim to empty. */
  lemma TrimNonEmpty(w: Space, s: string, i: nat)
    requires i < |s| && !IsSpace(w, s[i])
    ensures Trim(w, s) != []
  {
    TrimEmpty(w, s);
  }

  // ---------------------------------------------------------------- case mapping

  predicate IsAsciiUpper(c: char) { 'A' <= c <= 'Z' }
  predicate IsAsciiLower(c: char) { 'a' <= c <= 'z' }

  /** Upper-case Latin-1 letters that have a one-character lower-case partner 32 code points higher. */
  predicate IsLatinUpper(c: char) {
    IsAsciiUpper(c) || ('\U{00C0}' <= c <= '\U{00DE}' && c != '\U{00D7}')
  }

  predicate IsLatinLower(c: char) {
    IsAsciiLower(c) || ('\U{00E0}' <= c <= '\U{00FE}' && c != '\U{00F7}')
  }

  /** `toLowerCase` of one character, over ASCII and Latin-1. */
  function LowerChar(c: char): (r: char)
    ensures IsLatinUpper(c) ==> IsLatinLower(r)
    ensures !IsLatinUpper(c) ==> r == c
  {
    if IsLatinUpper(c) then (c as int + 32) as char else c
  }

  /** `to_uppercase` / `toUpperCase` of one character, over ASCII and Latin-1, plus long s to S. */
  function UpperChar(c: char): (r: char)
    ensures IsLatinLower(c) ==> IsLatinUpper(r)
    ensures !IsLatinLower(c) && c != '\U{017F}' ==> r == c
  {
    if IsLatinLower(c) then (c as int - 32) as char
    else if c == '\U{017F}' then 'S'
    else c
  }

  function Lower(s: string): (r: string)
    ensures |r| == |s| && forall i :: 0 <= i < |s| ==> r[i] == LowerChar(s[i])
  {
    seq(|s|, i requires 0 <= i < |s| => LowerChar(s[i]))
  }

  function Upper(s: string): (r: string)
    ensures |r| == |s| && forall i :: 0 <= i < |s| ==> r[i] == UpperChar(s[i])
  {
    seq(|s|, i requires 0 <= i < |s| => UpperChar(s[i]))
  }

  /** Lower-casing and upper-casing are idempotent, and each undoes the other on letters. */
  lemma CaseIdempotent(s: string)
    ensures Lower(Lower(s)) == Lower(s)
    ensures Upper(Upper(s)) == Upper(s)
    ensures forall i :: 0 <= i < |s| && IsLatinUpper(s[i]) ==> Upper(Lower(s))[i] == s[i]
  {
  }

  // ---------------------------------------------------------------- search

  predicate StartsWith(s: string, p: string) {
    |p| <= |s| && s[..|p|] == p
  }

  predicate EndsWith(s: string, p: string) {
    |p| <= |s| && s[|s| - |p|..] == p
  }

  /** `t` occurs in `s` at position `k`. */
  predicate OccursAt(s: string, t: string, k: int) {
    0 <= k && k + |t| <= |s| && s[k..k + |t|] == t
  }

  /** `s.includes(t)` / `str::contains`. */
  predicate Contains(s: string, t: string) {
    exists k :: 0 <= k <= |s| - |t| && OccursAt(s, t, k)
  }

  /** The three pieces of `a + t + b` show up where they were put. */
  lemma Pieces(a: string, t: string, b: string)
    ensures StartsWith(a + t + b, a) && EndsWith(a + t + b, b)
    ensures OccursAt(a + t + b, t, |a|) && Contains(a + t + b, t)
  {
    var s := a + t + b;
    assert s[..|a|] == a && s[|s| - |b|..] == b;
    assert s[|a|..|a| + |t|] == t;
    assert 0 <= |a| <= |s| - |t| && OccursAt(s, t, |a|);
  }

  /** `s.indexOf(t)`: the leftmost position at which `t` occurs, if any (see `IndexOfLeast`). */
  function IndexOf(s: string, t: string): (r: Option<nat>)
    requires t != []
    ensures r.Some? ==> OccursAt(s, t, r.value)
    decreases |s|
  {
    if |s| < |t| then None
    else if s[..|t|] == t then Some(0)
    else
      match IndexOf(s[1..], t)
      case None => None
      case Some(i) =>
        assert s[1..][i..i + |t|] == s[i + 1..i + 1 + |t|];
        Some(i + 1)
  }

  /** An occurrence one position in corresponds to an occurrence in the tail. */
  lemma OccursShift(s: string, t: string)
    requires s != []
    ensures forall j :: 1 <= j <= |s| ==> (OccursAt(s, t, j) <==> OccursAt(s[1..], t, j - 1))
  {
    forall j | 1 <= j <= |s| ensures OccursAt(s, t, j) <==> OccursAt(s[1..], t, j - 1) {
      if j + |t| <= |s| {
        assert s[1..][j - 1..j - 1 + |t|] == s[j..j + |t|];
      }
    }
  }

  /** `indexOf` finds the first occurrence, and finds nothing only when there is none. */
  lemma {:induction false} IndexOfLeast(s: string, t: string)
    requires t != []
    ensures IndexOf(s, t).Some? ==> forall j :: 0 <= j < IndexOf(s, t).value ==> !OccursAt(s, t, j)
    ensures IndexOf(s, t).None? ==> forall j :: 0 <= j <= |s| ==> !OccursAt(s, t, j)
    decreases |s|
  {
    if |s| >= |t| && s[..|t|] != t {
      IndexOfLeast(s[1..], t);
      OccursShift(s, t);
    }
  }

  /** `indexOf` finds nothing exactly when the needle is not contained. */
  lemma IndexOfNone(s: string, t: string)
    requires t != []
    ensures IndexOf(s, t).None? <==> !Contains(s, t)
  {
    IndexOfLeast(s, t);
    if IndexOf(s, t).Some? {
      var i := IndexOf(s, t).value;
      assert OccursAt(s, t, i);
    }
  }

  /** An occurrence with none before it is what `indexOf` finds. */
  lemma IndexOfFirst(s: string, t: string, n: nat)
    requires t != [] && OccursAt(s, t, n)
    requires forall j :: 0 <= j < n ==> !OccursAt(s, t, j)
    ensures IndexOf(s, t) == Some(n)
  {
    IndexOfLeast(s, t);
  }

  /** A one-character needle occurs exactly when the character is an element of `s`. */
  lemma ContainsChar(s: string, c: char)
    ensures Contains(s, [c]) <==> c in s
  {
    if c in s {
      var k :| 0 <= k < |s| && s[k] == c;
      assert OccursAt(s, [c], k);
    }
    if Contains(s, [c]) {
      var k :| 0 <= k <= |s| - 1 && OccursAt(s, [c], k);
      assert s[k] == s[k..k + 1][0] == c;
    }
  }

  // ---------------------------------------------------------------- split / join

  /** `s.split(c)` for a one-character separator: the pieces between the separators, in order. */
  function SplitOn(s: string, c: char): (r: seq<string>)
    ensures |r| >= 1
    ensures forall k :: 0 <= k < |r| ==> c !in r[k]
  {
    if s == [] then [""]
    else
      var rest := SplitOn(s[1..], c);
      if s[0] == c then [""] + rest else [[s[0]] + rest[0]] + rest[1..]
  }

  /** `parts.join(sep)`. */
  function Join(parts: seq<string>, sep: string): string {
    if |parts| == 0 then ""
    else if |parts| == 1 then parts[0]
    else parts[0] + sep + Join(parts[1..], sep)
  }

  /** Joining a piece in front of a non-empty list puts the separator between them. */
  lemma JoinCons(head: string, parts: seq<string>, sep: string)
    requires |parts| >= 1
    ensures Join([head] + parts, sep) == head + sep + Join(parts, sep)
  {
    assert ([head] + parts)[1..] == parts;
  }

  /** A prefix of the first piece is a prefix of the join. */
  lemma JoinFirst(x: string, parts: seq<string>, sep: string)
    requires |parts| >= 1
    ensures Join([x + parts[0]] + parts[1..], sep) == x + Join(parts, sep)
  {
    if |parts| > 1 {
      JoinCons(x + parts[0], parts[1..], sep);
      JoinCons(parts[0], parts[1..], sep);
      assert parts == [parts[0]] + parts[1..];
    }
  }

  /** Joining two non-empty lists puts the separator between their joins. */
  lemma {:induction false} JoinAppend(a: seq<string>, b: seq<string>, sep: string)
    requires |a| >= 1 && |b| >= 1
    ensures Join(a + b, sep) == Join(a, sep) + sep + Join(b, sep)
    decreases |a|
  {
    if |a| == 1 {
      assert a + b == [a[0]] + b;
      JoinCons(a[0], b, sep);
    } else {
      JoinAppend(a[1..], b, sep);
      assert a + b == [a[0]] + (a[1..] + b);
      JoinCons(a[0], a[1..] + b, sep);
      JoinCons(a[0], a[1..], sep);
      assert a == [a[0]] + a[1..];
    }
  }

  /** Joining the pieces of a split with the separator gives back the string. */
  lemma {:induction false} JoinSplit(s: string, c: char)
    ensures Join(SplitOn(s, c), [c]) == s
  {
    if s != [] {
      var rest := SplitOn(s[1..], c);
      JoinSplit(s[1..], c);
      if s[0] == c {
        JoinCons("", rest, [c]);
      } else {
        JoinFirst([s[0]], rest, [c]);
      }
      assert s == [s[0]] + s[1..];
    }
  }

  /** A text without the separator is one piece. */
  lemma {:induction false} SplitOnFree(a: string, c: char)
    requires c !in a
    ensures SplitOn(a, c) == [a]
  {
    if a != [] {
      SplitOnFree(a[1..], c);
      assert a == [a[0]] + a[1..];
    }
  }

  /** A separator-free prefix followed by the separator is the first piece. */
  lemma {:induction false} SplitOnPrefix(a: string, c: char, t: string)
    requires c !in a
    ensures SplitOn(a + [c] + t, c) == [a] + SplitOn(t, c)
  {
    var s := a + [c] + t;
    if a == [] {
      assert s[0] == c && s[1..] == t;
    } else {
      assert s[0] == a[0] && s[1..] == a[1..] + [c] + t;
      SplitOnPrefix(a[1..], c, t);
      assert [a[0]] + a[1..] == a;
    }
  }

  /** Splitting a joined list on a separator that no piece contains gives back the list. */
  lemma {:induction false} SplitJoin(parts: seq<string>, c: char)
    requires |parts| >= 1
    requires forall k :: 0 <= k < |parts| ==> c !in parts[k]
    ensures SplitOn(Join(parts, [c]), c) == parts
    decreases |parts|
  {
    if |parts| == 1 {
      SplitOnFree(parts[0], c);
    } else {
      SplitJoin(parts[1..], c);
      SplitOnPrefix(parts[0], c, Join(parts[1..], [c]));
      assert parts == [parts[0]] + parts[1..];
    }
  }

  /** `s.replaceAll(pat, rep)` / `str::replace`: every non-overlapping occurrence, scanned left to right. */
  function ReplaceAll(s: string, pat: string, rep: string): (r: string)
    requires pat != []
    ensures !Contains(s, pat) ==> r == s
    ensures |rep| <= |pat| ==> |r| <= |s|
    decreases |s|
  {
    match IndexOf(s, pat)
    case None => s
    case Some(i) => s[..i] + rep + ReplaceAll(s[i + |pat|..], pat, rep)
  }

  /** Trimming only removes characters, so a character absent before is absent after. */
  lemma TrimFree(w: Space, s: string, c: char)
    requires c !in s
    ensures c !in Trim(w, s)
  {
    var r := Trim(w, s);
    var k := TrimOffset(w, s);
    forall j | 0 <= j < |r| ensures r[j] != c {
      assert r[j] == s[k + j];
    }
  }

  function TrimAll(w: Space, pieces: seq<string>): (r: seq<string>)
    ensures |r| == |pieces| && forall i :: 0 <= i < |r| ==> r[i] == Trim(w, pieces[i])
  {
    seq(|pieces|, i requires 0 <= i < |pieces| => Trim(w, pieces[i]))
  }

  predicate NonEmpty(t: string) { t != [] }

  /**
   * `value.split(',').map(v => v.trim()).filter(Boolean)`: the non-empty trimmed
   * pieces of a comma-separated list.
   */
  function CommaItems(value: string): (r: seq<string>)
    ensures forall k :: 0 <= k < |r| ==> r[k] != [] && IsTrimmed(JsSpace, r[k]) && ',' !in r[k]
  {
    var pieces := SplitOn(value, ',');
    var trimmed := TrimAll(JsSpace, pieces);
    forall i | 0 <= i < |trimmed| ensures ',' !in trimmed[i] {
      TrimFree(JsSpace, pieces[i], ',');
    }
    KeepNonEmpty(trimmed)
  }

  function KeepNonEmpty(items: seq<string>): (r: seq<string>)
    requires forall i :: 0 <= i < |items| ==> IsTrimmed(JsSpace, items[i]) && ',' !in items[i]
    ensures forall k :: 0 <= k < |r| ==> r[k] != [] && IsTrimmed(JsSpace, r[k]) && ',' !in r[k]
    ensures r == Filter(items, NonEmpty)
  {
    var r := Filter(items, NonEmpty);
    assert forall k :: 0 <= k < |r| ==> r[k] in items && r[k] != [] by {
      forall k | 0 <= k < |r|
        ensures r[k] in items && r[k] != []
      {
        assert r[k] in r;
        assert NonEmpty(r[k]);
      }
    }
    r
  }

  /** Items of a list written without surrounding blanks, joined by commas, are read back unchanged. */
  lemma CommaItemsJoin(items: seq<string>)
    requires |items| >= 1
    requires forall k :: 0 <= k < |items| ==> items[k] != [] && IsTrimmed(JsSpace, items[k]) && ',' !in items[k]
    ensures CommaItems(Join(items, ",")) == items
  {
    SplitJoin(items, ',');
    var trimmed := TrimAll(JsSpace, items);
    forall i | 0 <= i < |items| ensures trimmed[i] == items[i] {
      TrimTrimmed(JsSpace, items[i]);
    }
    assert trimmed == items;
    FilterAll(trimmed, NonEmpty);
  }

  // ---------------------------------------------------------------- white-space runs

  /** `s.replace(/\s+/g, ' ')`: every run of white space becomes one blank. */
  function CollapseSpaces(s: string): (r: string)
    ensures forall i :: 0 <= i < |r| && IsSpace(JsSpace, r[i]) ==> r[i] == ' '
    ensures forall i :: 0 <= i < |r| - 1 ==> !(r[i] == ' ' && r[i + 1] == ' ')
    ensures s != [] ==> r != [] && (r[0] == ' ' <==> IsSpace(JsSpace, s[0]))
    decreases |s|
  {
    if s == [] then []
    else if IsSpace(JsSpace, s[0]) then
      var t := TrimStart(JsSpace, s);
      " " + CollapseSpaces(t)
    else [s[0]] + CollapseSpaces(s[1..])
  }

  /** Collapsing white space twice is the same as collapsing it once. */
  lemma {:induction false} CollapseSpacesIdempotent(s: string)
    requires forall i :: 0 <= i < |s| && IsSpace(JsSpace, s[i]) ==> s[i] == ' '
    requires forall i :: 0 <= i < |s| - 1 ==> !(s[i] == ' ' && s[i + 1] == ' ')
    ensures CollapseSpaces(s) == s
    decreases |s|
  {
    if s != [] {
      if IsSpace(JsSpace, s[0]) {
        assert TrimStart(JsSpace, s) == s[1..] by {
          assert s[1..] == [] || !IsSpace(JsSpace, s[1]);
        }
      }
      CollapseSpacesIdempotent(s[1..]);
    }
  }

  /** Collapsing introduces no character other than the blank. */
  lemma {:induction false} CollapseChars(s: string)
    ensures forall i :: 0 <= i < |CollapseSpaces(s)| ==> CollapseSpaces(s)[i] == ' ' || CollapseSpaces(s)[i] in s
    decreases |s|
  {
    if s != [] {
      if IsSpace(JsSpace, s[0]) {
        var t := TrimStart(JsSpace, s);
        CollapseChars(t);
        assert forall c :: c in t ==> c in s;
      } else {
        CollapseChars(s[1..]);
        assert forall c :: c in s[1..] ==> c in s;
      }
    }
  }

  /** A text that ends with a visible character still ends with it once collapsed. */
  lemma {:induction false} CollapseLast(s: string)
    requires s != [] && !IsSpace(JsSpace, s[|s| - 1])
    ensures CollapseSpaces(s) != [] && CollapseSpaces(s)[|CollapseSpaces(s)| - 1] == s[|s| - 1]
    decreases |s|
  {
    if IsSpace(JsSpace, s[0]) {
      var t := TrimStart(JsSpace, s);
      assert t != [] && t[|t| - 1] == s[|s| - 1];
      CollapseLast(t);
    } else if |s| > 1 {
      CollapseLast(s[1..]);
    }
  }

  // ---------------------------------------------------------------- decimal digits

  predicate IsDigit(c: char) { '0' <= c <= '9' }

  predicate AllDigits(s: string) {
    forall i :: 0 <= i < |s| ==> IsDigit(s[i])
  }

  function DigitChar(d: nat): (c: char)
    requires d < 10
    ensures IsDigit(c)
  {
    ('0' as int + d) as char
  }

  function DigitValue(c: char): (d: nat)
    requires IsDigit(c)
    ensures d < 10 && DigitChar(d) == c
  {
    c as int - '0' as int
  }

  /** The number written in decimal by a string of digits (leading zeros allowed). */
  function DigitsValue(s: string): nat
    requires AllDigits(s)
  {
    if s == [] then 0 else DigitsValue(s[..|s| - 1]) * 10 + DigitValue(s[|s| - 1])
  }

  function Pow10(n: nat): (r: nat)
    ensures r >= 1
  {
    if n == 0 then 1 else 10 * Pow10(n - 1)
  }

  /** A string of `w` digits has a value below 10^w. */
  lemma {:induction false} DigitsValueBound(s: string)
    requires AllDigits(s)
    ensures DigitsValue(s) < Pow10(|s|)
  {
    if s != [] {
      DigitsValueBound(s[..|s| - 1]);
    }
  }

  /** The `w` low-order decimal digits of `n`, zero-padded: `String(n).padStart(w, '0')` for `n < 10^w`. */
  function FixedDigits(n: nat, w: nat): (r: string)
    ensures |r| == w && AllDigits(r)
  {
    if w == 0 then "" else FixedDigits(n / 10, w - 1) + [DigitChar(n % 10)]
  }

  /** Reading back a zero-padded rendering gives the number, when it fits. */
  lemma {:induction false} FixedDigitsValue(n: nat, w: nat)
    requires n < Pow10(w)
    ensures DigitsValue(FixedDigits(n, w)) == n
  {
    if w > 0 {
      FixedDigitsValue(n / 10, w - 1);
      var r := FixedDigits(n, w);
      assert r[..w - 1] == FixedDigits(n / 10, w - 1);
    }
  }

  /** Rendering the value of a digit string at its own width gives back the string. */
  lemma {:induction false} DigitsRoundTrip(s: string)
    requires AllDigits(s)
    ensures FixedDigits(DigitsValue(s), |s|) == s
  {
    if s != [] {
      var init := s[..|s| - 1];
      DigitsRoundTrip(init);
      assert s == init + [s[|s| - 1]];
    }
  }

  /** `String(n)` for a natural number: its decimal digits without leading zeros. */
  function NatToString(n: nat): (r: string)
    ensures r != [] && AllDigits(r) && DigitsValue(r) == n
    ensures r[0] == '0' ==> n == 0
  {
    if n < 10 then [DigitChar(n)]
    else
      var r := NatToString(n / 10) + [DigitChar(n % 10)];
      assert r[..|r| - 1] == NatToString(n / 10);
      r
  }

  /** `String(i)` for an integer. */
  function IntToString(i: int): (r: string)
    ensures r != []
    ensures i < 0 <==> r[0] == '-'
  {
    if i < 0 then "-" + NatToString(-i) else NatToString(i)
  }

  /** `String(n).padStart(2, '0')`. */
  function Pad2(n: nat): (r: string)
    ensures |r| >= 2 && AllDigits(r) && DigitsValue(r) == n
  {
    var s := NatToString(n);
    if |s| < 2 then
      var r := "0" + s;
      assert r[..1] == "0";
      r
    else s
  }

  /** Below 100, the padded rendering is exactly two digits. */
  lemma Pad2Fixed(n: nat)
    requires n < 100
    ensures Pad2(n) == FixedDigits(n, 2)
  {
    var s := Pad2(n);
    if |s| > 2 {
      var t := NatToString(n);
      LeadingDigitBound(t);
      assert Pow10(2) == 100;
      assert Pow10(|t| - 1) >= Pow10(2) by { Pow10Mono(2, |t| - 1); }
    }
    DigitsRoundTrip(s);
  }

  lemma {:induction false} Pow10Mono(a: nat, b: nat)
    requires a <= b
    ensures Pow10(a) <= Pow10(b)
  {
    if a < b {
      Pow10Mono(a, b - 1);
    }
  }

  /** A digit string not starting with zero has a value of at least 10^(length-1). */
  lemma {:induction false} LeadingDigitBound(s: string)
    requires |s| >= 1 && AllDigits(s) && s[0] != '0'
    ensures DigitsValue(s) >= Pow10(|s| - 1)
  {
    if |s| > 1 {
      var init := s[..|s| - 1];
      LeadingDigitBound(init);
    }
  }

  /**
   * `Number(s)` for a string: blank strings give 0, decimal digit strings their value;
   * `None` stands for `NaN`.  Signs, fractions, exponents, hexadecimal and `Infinity`
   * are outside the model.
   */
  function ToNumber(s: string): (r: Option<nat>)
    ensures Trim(JsSpace, s) == [] ==> r == Some(0)
    ensures r.Some? && Trim(JsSpace, s) != [] ==> AllDigits(Trim(JsSpace, s)) && r.value == DigitsValue(Trim(JsSpace, s))
  {
    var t := Trim(JsSpace, s);
    if t == [] then Some(0)
    else if AllDigits(t) then Some(DigitsValue(t))
    else None
  }

  // ---------------------------------------------------------------- code units and order

  /** The UTF-16 code units of a string, as JavaScript sees it. */
  function CodeUnits(s: string): (r: seq<nat>)
    ensures forall i :: 0 <= i < |r| ==> r[i] < 0x1_0000
    ensures |r| >= |s|
  {
    if s == [] then []
    else
      var c := s[0] as int;
      var head := if c < 0x1_0000 then [c] else [0xD800 + (c - 0x1_0000) / 0x400, 0xDC00 + (c - 0x1_0000) % 0x400];
      head + CodeUnits(s[1..])
  }

  /** `s.length`. */
  function JsLength(s: string): nat {
    |CodeUnits(s)|
  }

  /** Code-point lexicographic order: the order of `<=` on JavaScript strings of the Basic Multilingual Plane. */
  predicate StrLe(a: string, b: string) {
    a == [] || (b != [] && (a[0] < b[0] || (a[0] == b[0] && StrLe(a[1..], b[1..]))))
  }

  lemma {:induction false} StrLeTotal(a: string, b: string)
    ensures StrLe(a, b) || StrLe(b, a)
  {
    if a != [] && b != [] && a[0] == b[0] {
      StrLeTotal(a[1..], b[1..]);
    }
  }

  lemma {:induction false} StrLeTrans(a: string, b: string, c: string)
    requires StrLe(a, b) && StrLe(b, c)
    ensures StrLe(a, c)
  {
    if a != [] && b != [] && c != [] && a[0] == b[0] == c[0] {
      StrLeTrans(a[1..], b[1..], c[1..]);
    }
  }

  lemma {:induction false} StrLeAntisym(a: string, b: string)
    requires StrLe(a, b) && StrLe(b, a)
    ensures a == b
  {
    if a != [] && b != [] {
      StrLeAntisym(a[1..], b[1..]);
      assert a == [a[0]] + a[1..] && b == [b[0]] + b[1..];
    }
  }

  /** Code-point order is a total preorder, so it may serve as a sort comparator. */
  lemma StrLeTotalPreorder()
    ensures TotalPreorder(StrLe)
  {
    forall a, b ensures StrLe(a, b) || StrLe(b, a) {
      StrLeTotal(a, b);
    }
    forall a, b, c | StrLe(a, b) && StrLe(b, c) ensures StrLe(a, c) {
      StrLeTrans(a, b, c);
    }
  }
}
