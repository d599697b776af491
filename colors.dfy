/**
 * Subject colours of the frontend (`colors.ts`): a 32-bit string hash picks
 * one of twenty palette entries, blank subjects are grey, and a light variant
 * is the background colour at 10% opacity.
 *
 * JavaScript numbers are modelled as integers: the shift and the `&` of the
 * hash loop convert to signed 32-bit values, which `ToInt32` writes out.
 */
module Colors {
  import opened Text

  datatype Color = Color(bg: string, text: string)

  /** `COLOR_PALETTE`, in its order. */
  const Palette: seq<Color> := [
    Color("#EF4444", "#FFFFFF"), Color("#F97316", "#FFFFFF"), Color("#F59E0B", "#000000"),
    Color("#84CC16", "#000000"), Color("#10B981", "#FFFFFF"), Color("#14B8A6", "#FFFFFF"),
    Color("#06B6D4", "#000000"), Color("#3B82F6", "#FFFFFF"), Color("#6366F1", "#FFFFFF"),
    Color("#8B5CF6", "#FFFFFF"), Color("#A855F7", "#FFFFFF"), Color("#D946EF", "#FFFFFF"),
    Color("#EC4899", "#FFFFFF"), Color("#F43F5E", "#FFFFFF"), Color("#0EA5E9", "#FFFFFF"),
    Color("#22C55E", "#000000"), Color("#EAB308", "#000000"), Color("#DC2626", "#FFFFFF"),
    Color("#7C3AED", "#FFFFFF"), Color("#059669", "#FFFFFF")]

  /** The colour of a blank subject. */
  const DefaultGray: Color := Color("#94A3B8", "#FFFFFF")

  // ---------------------------------------------------------------- 32-bit arithmetic

  const TwoTo32: int := 0x1_0000_0000

  predicate IsInt32(x: int) { -0x8000_0000 <= x < 0x8000_0000 }

  /** ECMAScript `ToInt32` on an integral number: the signed 32-bit value congruent to `x`. */
  function ToInt32(x: int): (r: int)
    ensures IsInt32(r) && (x - r) % TwoTo32 == 0
    ensures IsInt32(x) ==> r == x
  {
    var m := x % TwoTo32;
    if m >= 0x8000_0000 then m - TwoTo32 else m
  }

  /** Numbers that differ by a multiple of 2^32 have the same 32-bit value. */
  lemma ToInt32Congruent(x: int, y: int)
    requires (x - y) % TwoTo32 == 0
    ensures ToInt32(x) == ToInt32(y)
  {
    var q := (x - y) / TwoTo32;
    assert x == y + q * TwoTo32;
    assert x % TwoTo32 == y % TwoTo32 by {
      ModAddMultiple(y, q);
    }
  }

  lemma ModAddMultiple(y: int, q: int)
    ensures (y + q * TwoTo32) % TwoTo32 == y % TwoTo32
  {
  }

  /** `h << 5` on a 32-bit number. */
  function ShiftLeft5(h: int): (r: int)
    ensures IsInt32(r)
  {
    ToInt32(h * 32)
  }

  /** One hash step as the design states it: `31 h + c` reduced to a signed 32-bit value. */
  function HashStep(h: int, c: nat): (r: int)
    ensures IsInt32(r) && (31 * h + c - r) % TwoTo32 == 0
  {
    ToInt32(31 * h + c)
  }

  /** The signed hash of a sequence of UTF-16 code units, folded from the left. */
  function Hash32(units: seq<nat>): (r: int)
    ensures IsInt32(r)
  {
    if units == [] then 0 else HashStep(Hash32(units[..|units| - 1]), units[|units| - 1])
  }

  function Abs(x: int): (r: nat)
    ensures r == x || r == -x
  {
    if x < 0 then -x else x
  }

  /** `hashString`: the absolute value of the 32-bit hash of the string's code units. */
  function Hash(s: string): (r: nat)
    ensures r <= 0x8000_0000
  {
    Abs(Hash32(CodeUnits(s)))
  }

  /** The loop body `((h << 5) - h) + c`, then `h & h`, is the step `31 h + c` in 32 bits. */
  lemma LoopStep(h: int, c: nat)
    requires IsInt32(h)
    ensures ToInt32(ShiftLeft5(h) - h + c) == HashStep(h, c)
  {
    var s := ShiftLeft5(h);
    assert (h * 32 - s) % TwoTo32 == 0;
    assert (s - h + c) - (31 * h + c) == s - h * 32;
    ToInt32Congruent(s - h + c, 31 * h + c);
  }

  /** `hashString`, as the loop the source runs. */
  method HashString(str: string) returns (hash: int)
    ensures hash == Hash(str) && hash >= 0
  {
    var units := CodeUnits(str);
    hash := 0;
    for i := 0 to |units|
      invariant hash == Hash32(units[..i])
    {
      var c := units[i];
      LoopStep(hash, c);
      hash := ShiftLeft5(hash) - hash + c;
      hash := ToInt32(hash);
      assert units[..i + 1][..i] == units[..i];
    }
    assert units[..|units|] == units;
    hash := Abs(hash);
  }

  // ---------------------------------------------------------------- subject colours

  /** The text the hash is taken of: the subject trimmed, then lower-cased. */
  function ColorKey(subject: string): string {
    Lower(Trim(JsSpace, subject))
  }

  /** `getSubjectColor`: grey for a blank subject, otherwise palette entry `hash mod 20` of its key. */
  function SubjectColor(subject: string): (r: Color)
    ensures Trim(JsSpace, subject) == [] ==> r == DefaultGray
    ensures Trim(JsSpace, subject) != [] ==>
      var i := Hash(ColorKey(subject)) % |Palette|;
      0 <= i < 20 && r == Palette[i]
  {
    if Trim(JsSpace, subject) == [] then DefaultGray
    else Palette[Hash(ColorKey(subject)) % |Palette|]
  }

  /** Grey is not a palette colour, so a subject is grey exactly when it is blank. */
  lemma GrayOnlyForBlank(subject: string)
    ensures SubjectColor(subject) == DefaultGray <==> Trim(JsSpace, subject) == []
    ensures SubjectColor(subject) in Palette || SubjectColor(subject) == DefaultGray
  {
    PaletteEntries();
  }

  /** Subjects that agree once trimmed and lower-cased get the same colour. */
  lemma SameKeySameColor(a: string, b: string)
    requires ColorKey(a) == ColorKey(b)
    ensures SubjectColor(a) == SubjectColor(b)
  {
    assert |Trim(JsSpace, a)| == |ColorKey(a)| && |Trim(JsSpace, b)| == |ColorKey(b)|;
  }

  // ---------------------------------------------------------------- light variant

  predicate IsHexDigit(c: char) {
    ('0' <= c <= '9') || ('A' <= c <= 'F') || ('a' <= c <= 'f')
  }

  function HexValue(c: char): (d: nat)
    requires IsHexDigit(c)
    ensures d < 16
  {
    if '0' <= c <= '9' then c as int - '0' as int
    else if 'A' <= c <= 'F' then c as int - 'A' as int + 10
    else c as int - 'a' as int + 10
  }

  /** A background text `#` followed by six hexadecimal digits. */
  predicate IsHexColor(bg: string) {
    |bg| == 7 && bg[0] == '#' && forall i :: 1 <= i < 7 ==> IsHexDigit(bg[i])
  }

  /** A palette entry has a well-formed background that does not start like grey's. */
  predicate EntryOk(i: int)
    requires 0 <= i < |Palette|
  {
    IsHexColor(Palette[i].bg) && Palette[i].bg[1] != '9'
  }

  lemma EntriesFrom(lo: int)
    requires lo in {0, 5, 10, 15}
    ensures forall i :: lo <= i < lo + 5 ==> EntryOk(i)
  {
  }

  /** Every palette entry is well formed, and none is grey. */
  lemma PaletteEntries()
    ensures forall i :: 0 <= i < |Palette| ==> EntryOk(i)
    ensures IsHexColor(DefaultGray.bg) && DefaultGray !in Palette
  {
    EntriesFrom(0);
    EntriesFrom(5);
    EntriesFrom(10);
    EntriesFrom(15);
    assert DefaultGray.bg[1] == '9';
  }

  /** `parseInt(pair, 16)` of two hexadecimal digits. */
  function HexPair(a: char, b: char): (v: nat)
    requires IsHexDigit(a) && IsHexDigit(b)
    ensures v < 256
  {
    16 * HexValue(a) + HexValue(b)
  }

  /** The red, green and blue components of a well-formed background, each in 0..255. */
  function Components(bg: string): (rgb: (nat, nat, nat))
    requires IsHexColor(bg)
    ensures rgb.0 < 256 && rgb.1 < 256 && rgb.2 < 256
  {
    (HexPair(bg[1], bg[2]), HexPair(bg[3], bg[4]), HexPair(bg[5], bg[6]))
  }

  /** Every colour a subject can get has a well-formed background. */
  lemma SubjectColorsAreHex(subject: string)
    ensures IsHexColor(SubjectColor(subject).bg)
  {
    PaletteEntries();
    if Trim(JsSpace, subject) != [] {
      var i := Hash(ColorKey(subject)) % |Palette|;
      assert EntryOk(i);
    }
  }

  /** The digits of a component name it again. */
  lemma ComponentsInvert(bg: string)
    requires IsHexColor(bg)
    ensures Components(bg).0 / 16 == HexValue(bg[1]) && Components(bg).0 % 16 == HexValue(bg[2])
    ensures Components(bg).1 / 16 == HexValue(bg[3]) && Components(bg).1 % 16 == HexValue(bg[4])
    ensures Components(bg).2 / 16 == HexValue(bg[5]) && Components(bg).2 % 16 == HexValue(bg[6])
  {
  }

  /** `getSubjectColorLight`: `rgba(r, g, b, 0.1)` with the components of the subject's background. */
  function SubjectColorLight(subject: string): (r: string)
    ensures
      var bg := SubjectColor(subject).bg;
      IsHexColor(bg) &&
      var (red, green, blue) := Components(bg);
      && StartsWith(r, "rgba(" + NatToString(red))
      && Contains(r, ", " + NatToString(green) + ", " + NatToString(blue) + ", ")
      && EndsWith(r, "0.1)")
  {
    var bg := SubjectColor(subject).bg;
    SubjectColorsAreHex(subject);
    var (red, green, blue) := Components(bg);
    var p, q := "rgba(" + NatToString(red), ", " + NatToString(green) + ", " + NatToString(blue) + ", ";
    Pieces(p, q, "0.1)");
    p + q + "0.1)"
  }
}
