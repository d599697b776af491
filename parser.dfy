/**
 * The ICS post-processing of agendum-core: RFC 5545 TEXT unescaping and the
 * loop that turns decoded calendars into raw events while keeping diagnostics.
 *
 * The grammar of the ICS format (line folding, BEGIN/END nesting) belongs to
 * the `ical` crate and is not modelled: its output is a sequence of
 * `DecodeItem`s, each a decoded calendar or an error message.
 */
module IcsParser {
  import opened Base
  import opened Text

  /** One VEVENT with the six properties the core keeps. */
  datatype RawEvent = RawEvent(
    uid: string, summary: string, description: string,
    location: string, start: string, end: string)

  /** A property as the decoder delivers it: a name and a value that may be missing. */
  datatype Property = Property(name: string, value: Option<string>)

  datatype Component = Component(properties: seq<Property>)

  datatype Calendar = Calendar(events: seq<Component>)

  /** One item of the decoder's output stream. */
  datatype DecodeItem = Decoded(calendar: Calendar) | DecodeError(message: string)

  datatype ParseDiagnostics = ParseDiagnostics(
    calendarsParsed: nat, parserErrors: nat, skippedEventsWithoutUid: nat,
    parserErrorMessages: seq<string>)

  datatype ParseOutput = ParseOutput(events: seq<RawEvent>, diagnostics: ParseDiagnostics)

  /** At most this many error messages are kept. */
  const MaxErrorMessages: nat := 5

  const EmptyEvent := RawEvent("", "", "", "", "", "")
  const EmptyOutput := ParseOutput([], ParseDiagnostics(0, 0, 0, []))

  // ---------------------------------------------------------------- TEXT unescaping

  /**
   * The replace chain of `unescape_ical`, as written: backslash-n, backslash-N,
   * backslash-comma, backslash-semicolon, and finally double backslash, each
   * replaced over the whole string in turn.
   */
  function UnescapeIcal(s: string): (r: string)
    ensures |r| <= |s|
  {
    var a := ReplaceAll(s, "\\n", "\n");
    var b := ReplaceAll(a, "\\N", "\n");
    var c := ReplaceAll(b, "\\,", ",");
    var d := ReplaceAll(c, "\\;", ";");
    ReplaceAll(d, "\\\\", "\\")
  }

  /** A pattern starting with a backslash cannot occur in a string without one. */
  lemma NoBackslashNoMatch(s: string, pat: string)
    requires pat != [] && pat[0] == '\\' && '\\' !in s
    ensures !Contains(s, pat)
  {
    forall k | 0 <= k <= |s| - |pat| ensures !OccursAt(s, pat, k) {
      assert s[k] != '\\';
    }
  }

  /** A string without backslashes passes through the replace chain unchanged. */
  lemma UnescapeIcalNoBackslash(s: string)
    requires '\\' !in s
    ensures UnescapeIcal(s) == s
  {
    NoBackslashNoMatch(s, "\\n");
    NoBackslashNoMatch(s, "\\N");
    NoBackslashNoMatch(s, "\\,");
    NoBackslashNoMatch(s, "\\;");
    NoBackslashNoMatch(s, "\\\\");
  }

  /**
   * `\\n` (an escaped backslash followed by the letter n) is the TEXT encoding of
   * backslash-n; the chain turns it into a backslash followed by a line break.
   */
  lemma UnescapeIcalEscapedBackslash()
    ensures UnescapeIcal("\\\\n") == "\\\n"
    ensures UnescapeText("\\\\n") == "\\n"
  {
    var s := "\\\\n";
    assert s[0..2] == "\\\\";
    assert OccursAt(s, "\\n", 1);
    assert IndexOf(s, "\\n") == Some(1);
    var a := "\\\n";
    assert ReplaceAll("", "\\n", "\n") == "";
    assert ReplaceAll(s, "\\n", "\n") == a;
    NoBackslashPrefixFree(a, "\\N");
    NoBackslashPrefixFree(a, "\\,");
    NoBackslashPrefixFree(a, "\\;");
    NoBackslashPrefixFree(a, "\\\\");
  }

  /** In backslash followed by line break, no two-character escape starting with a backslash occurs. */
  lemma NoBackslashPrefixFree(a: string, pat: string)
    requires a == "\\\n" && |pat| == 2 && pat[0] == '\\' && pat[1] != '\n'
    ensures ReplaceAll(a, pat, "x") == a && !Contains(a, pat)
  {
    assert !OccursAt(a, pat, 0);
  }

  /**
   * TEXT unescaping of section 3.3.11 of RFC 5545 in one left-to-right pass: an
   * escape pair is decoded as a unit, so the backslash of `\\` never starts a
   * second escape.  A backslash before any other character is kept.
   */
  function UnescapeText(s: string): string
    decreases |s|
  {
    if s == [] then []
    else
      var pair := |s| >= 2 && s[0] == '\\' && IsEscapable(s[1]);
      [if pair then Unescaped(s[1]) else s[0]] + UnescapeText(s[if pair then 2 else 1..])
  }

  /** Unescaping never lengthens a string. */
  lemma {:induction false} UnescapeTextShorter(s: string)
    ensures |UnescapeText(s)| <= |s|
    decreases |s|
  {
    if s != [] {
      UnescapeTextShorter(s[if |s| >= 2 && s[0] == '\\' && IsEscapable(s[1]) then 2 else 1..]);
    }
  }

  /** The characters that may follow a backslash in an escape pair. */
  predicate IsEscapable(c: char) {
    c == 'n' || c == 'N' || c == ',' || c == ';' || c == '\\'
  }

  /** The character an escape pair stands for. */
  function Unescaped(c: char): char {
    if c == 'n' || c == 'N' then '\n' else c
  }

  /** TEXT escaping: backslash, semicolon, comma and line break get a backslash. */
  function EscapeText(t: string): (r: string)
    ensures |r| >= |t|
  {
    if t == [] then []
    else
      var c := t[0];
      var head := if c == '\n' then "\\n" else if c == '\\' || c == ';' || c == ',' then ['\\', c] else [c];
      head + EscapeText(t[1..])
  }

  /** Unescaping undoes escaping, for every text. */
  lemma {:induction false} UnescapeEscape(t: string)
    ensures UnescapeText(EscapeText(t)) == t
  {
    if t != [] {
      var e := EscapeText(t);
      var rest := EscapeText(t[1..]);
      UnescapeEscape(t[1..]);
      var c := t[0];
      if c == '\n' || c == '\\' || c == ';' || c == ',' {
        assert e[2..] == rest;
      } else {
        assert e[1..] == rest;
      }
      assert t == [c] + t[1..];
    }
  }

  /** A string without backslashes is its own unescaping. */
  lemma {:induction false} UnescapeTextNoBackslash(s: string)
    requires '\\' !in s
    ensures UnescapeText(s) == s
  {
    if s != [] {
      assert '\\' !in s[1..];
      UnescapeTextNoBackslash(s[1..]);
      assert s == [s[0]] + s[1..];
    }
  }

  // ---------------------------------------------------------------- property extraction

  /**
   * Which unescaping the text fields go through: the replace chain the code
   * calls (`AsWritten`), or the one-pass decoding it is meant to perform
   * (`OnePass`).
   */
  datatype Unescaping = AsWritten | OnePass

  function Unescape(u: Unescaping, s: string): string {
    match u
    case AsWritten => UnescapeIcal(s)
    case OnePass => UnescapeText(s)
  }

  /** The effect of one property on the fields gathered so far. */
  function ApplyProperty(u: Unescaping, ev: RawEvent, p: Property): RawEvent {
    var val := p.value.GetOr("");
    if p.name == "UID" then ev.(uid := val)
    else if p.name == "SUMMARY" then ev.(summary := Unescape(u, val))
    else if p.name == "DESCRIPTION" then ev.(description := Unescape(u, val))
    else if p.name == "LOCATION" then ev.(location := Unescape(u, val))
    else if p.name == "DTSTART" then ev.(start := val)
    else if p.name == "DTEND" then ev.(end := val)
    else ev
  }

  /** The fields collected from a property list, processed in order. */
  function FieldsOf(u: Unescaping, props: seq<Property>): RawEvent {
    if props == [] then EmptyEvent
    else ApplyProperty(u, FieldsOf(u, props[..|props| - 1]), props[|props| - 1])
  }

  /** The value of the last property named `name`, a missing value read as "", or "" if there is none. */
  function LastValue(props: seq<Property>, name: string): string {
    if props == [] then ""
    else if props[|props| - 1].name == name then props[|props| - 1].value.GetOr("")
    else LastValue(props[..|props| - 1], name)
  }

  /** `LastValue` is the value of the property that no later one of the same name follows. */
  lemma {:induction false} LastValueIsLast(props: seq<Property>, name: string, i: nat)
    requires i < |props| && props[i].name == name
    requires forall j :: i < j < |props| ==> props[j].name != name
    ensures LastValue(props, name) == props[i].value.GetOr("")
  {
    if i < |props| - 1 {
      var init := props[..|props| - 1];
      assert props[|props| - 1].name != name;
      assert forall j :: i < j < |init| ==> init[j].name != name by {
        forall j | i < j < |init| ensures init[j].name != name {
          assert init[j] == props[j];
        }
      }
      LastValueIsLast(init, name, i);
    }
  }

  /** Without a property of that name, the value is empty. */
  lemma {:induction false} LastValueAbsent(props: seq<Property>, name: string)
    requires forall i :: 0 <= i < |props| ==> props[i].name != name
    ensures LastValue(props, name) == ""
  {
    if props != [] {
      var init := props[..|props| - 1];
      assert props[|props| - 1].name != name;
      assert forall j :: 0 <= j < |init| ==> init[j].name != name by {
        forall j | 0 <= j < |init| ensures init[j].name != name {
          assert init[j] == props[j];
        }
      }
      LastValueAbsent(init, name);
    }
  }

  /**
   * Each kept field is its property's last value: UID, DTSTART and DTEND verbatim,
   * SUMMARY, DESCRIPTION and LOCATION unescaped; absent properties give "".
   */
  lemma {:induction false} FieldsOfLastValue(u: Unescaping, props: seq<Property>)
    ensures FieldsOf(u, props) == RawEvent(
      LastValue(props, "UID"),
      Unescape(u, LastValue(props, "SUMMARY")),
      Unescape(u, LastValue(props, "DESCRIPTION")),
      Unescape(u, LastValue(props, "LOCATION")),
      LastValue(props, "DTSTART"),
      LastValue(props, "DTEND"))
  {
    if props != [] {
      FieldsOfLastValue(u, props[..|props| - 1]);
    }
  }

  /**
   * With the one-pass unescaping, the text fields of a component whose
   * properties were escaped as iCalendar TEXT are the texts that were escaped.
   */
  lemma OnePassFieldsRoundTrip(props: seq<Property>, summary: string, description: string, location: string)
    requires LastValue(props, "SUMMARY") == EscapeText(summary)
    requires LastValue(props, "DESCRIPTION") == EscapeText(description)
    requires LastValue(props, "LOCATION") == EscapeText(location)
    ensures var ev := FieldsOf(OnePass, props);
      ev.summary == summary && ev.description == description && ev.location == location
  {
    FieldsOfLastValue(OnePass, props);
    UnescapeEscape(summary);
    UnescapeEscape(description);
    UnescapeEscape(location);
  }

  /**
   * As written, that round trip fails: a summary made of a backslash and `n`,
   * escaped as `\\n`, comes out as a backslash and a line break, where the
   * one-pass unescaping gives it back.
   */
  lemma AsWrittenSummaryEscapedBackslash(props: seq<Property>)
    requires LastValue(props, "SUMMARY") == EscapeText("\\n")
    ensures FieldsOf(AsWritten, props).summary == "\\\n"
    ensures FieldsOf(OnePass, props).summary == "\\n"
  {
    assert EscapeText("\\n") == "\\\\n" by {
      assert EscapeText("n") == "n";
    }
    FieldsOfLastValue(AsWritten, props);
    FieldsOfLastValue(OnePass, props);
    UnescapeIcalEscapedBackslash();
  }

  // ---------------------------------------------------------------- diagnostics

  /** One event component: emitted when its UID is non-empty, otherwise counted as skipped. */
  function AddComponent(u: Unescaping, o: ParseOutput, c: Component): ParseOutput {
    var ev := FieldsOf(u, c.properties);
    if ev.uid != "" then o.(events := o.events + [ev])
    else o.(diagnostics := o.diagnostics.(skippedEventsWithoutUid := o.diagnostics.skippedEventsWithoutUid + 1))
  }

  function AddComponents(u: Unescaping, o: ParseOutput, cs: seq<Component>): ParseOutput {
    if cs == [] then o else AddComponent(u, AddComponents(u, o, cs[..|cs| - 1]), cs[|cs| - 1])
  }

  /** The effect of one decoder item. */
  function AddItem(u: Unescaping, o: ParseOutput, item: DecodeItem): ParseOutput {
    match item
    case Decoded(cal) =>
      var d := o.diagnostics;
      AddComponents(u, o.(diagnostics := d.(calendarsParsed := d.calendarsParsed + 1)), cal.events)
    case DecodeError(msg) =>
      var d := o.diagnostics;
      var msgs := if |d.parserErrorMessages| < MaxErrorMessages then d.parserErrorMessages + [msg] else d.parserErrorMessages;
      o.(diagnostics := d.(parserErrors := d.parserErrors + 1, parserErrorMessages := msgs))
  }

  /** The output for a decoder stream, item by item from the empty output. */
  function ParseSpec(u: Unescaping, stream: seq<DecodeItem>): ParseOutput {
    if stream == [] then EmptyOutput else AddItem(u, ParseSpec(u, stream[..|stream| - 1]), stream[|stream| - 1])
  }

  /**
   * The per-property loop for one component: each recognised property
   * overwrites its field, so the last occurrence wins.  The text fields go
   * through the replace chain, as in the code.
   */
  method ExtractFields(props: seq<Property>) returns (ev: RawEvent)
    ensures ev == FieldsOf(AsWritten, props)
  {
    var uid, summary, description, location, start, end := "", "", "", "", "", "";
    for k := 0 to |props|
      invariant RawEvent(uid, summary, description, location, start, end) == FieldsOf(AsWritten, props[..k])
    {
      assert props[..k + 1][..k] == props[..k];
      var val := props[k].value.GetOr("");
      var name := props[k].name;
      if name == "UID" {
        uid := val;
      } else if name == "SUMMARY" {
        summary := UnescapeIcal(val);
      } else if name == "DESCRIPTION" {
        description := UnescapeIcal(val);
      } else if name == "LOCATION" {
        location := UnescapeIcal(val);
      } else if name == "DTSTART" {
        start := val;
      } else if name == "DTEND" {
        end := val;
      }
    }
    assert props[..|props|] == props;
    ev := RawEvent(uid, summary, description, location, start, end);
  }

  /**
   * `parse_ics_content_with_diagnostics` over the decoder's stream: nested loops
   * over calendars and their event components, with counters updated in place.
   */
  method ParseIcsContentWithDiagnostics(stream: seq<DecodeItem>) returns (out: ParseOutput)
    ensures out == ParseSpec(AsWritten, stream)
  {
    var events: seq<RawEvent> := [];
    var diagnostics := ParseDiagnostics(0, 0, 0, []);
    for i := 0 to |stream|
      invariant ParseOutput(events, diagnostics) == ParseSpec(AsWritten, stream[..i])
    {
      assert stream[..i + 1][..i] == stream[..i];
      match stream[i]
      case Decoded(calendar) =>
        diagnostics := diagnostics.(calendarsParsed := diagnostics.calendarsParsed + 1);
        ghost var started := ParseOutput(events, diagnostics);
        for j := 0 to |calendar.events|
          invariant ParseOutput(events, diagnostics) == AddComponents(AsWritten, started, calendar.events[..j])
        {
          assert calendar.events[..j + 1][..j] == calendar.events[..j];
          var ev := ExtractFields(calendar.events[j].properties);
          if ev.uid != "" {
            events := events + [ev];
          } else {
            diagnostics := diagnostics.(skippedEventsWithoutUid := diagnostics.skippedEventsWithoutUid + 1);
          }
        }
        assert calendar.events[..|calendar.events|] == calendar.events;
      case DecodeError(message) =>
        diagnostics := diagnostics.(parserErrors := diagnostics.parserErrors + 1);
        if |diagnostics.parserErrorMessages| < MaxErrorMessages {
          diagnostics := diagnostics.(parserErrorMessages := diagnostics.parserErrorMessages + [message]);
        }
    }
    assert stream[..|stream|] == stream;
    out := ParseOutput(events, diagnostics);
  }

  /** `parse_ics_content`: the events of the diagnostics-keeping parse. */
  method ParseIcsContent(stream: seq<DecodeItem>) returns (events: seq<RawEvent>)
    ensures events == ParseSpec(AsWritten, stream).events
  {
    var out := ParseIcsContentWithDiagnostics(stream);
    events := out.events;
  }

  // ---------------------------------------------------------------- reference counts

  function CountDecoded(stream: seq<DecodeItem>): nat {
    if stream == [] then 0 else CountDecoded(stream[..|stream| - 1]) + (if stream[|stream| - 1].Decoded? then 1 else 0)
  }

  function ErrorMessages(stream: seq<DecodeItem>): seq<string> {
    if stream == [] then []
    else ErrorMessages(stream[..|stream| - 1]) + (match stream[|stream| - 1] case DecodeError(m) => [m] case Decoded(_) => [])
  }

  /** The events a list of components yields: those whose UID is non-empty, in order. */
  function Emitted(u: Unescaping, cs: seq<Component>): seq<RawEvent> {
    if cs == [] then []
    else Emitted(u, cs[..|cs| - 1]) + (var ev := FieldsOf(u, cs[|cs| - 1].properties); if ev.uid != "" then [ev] else [])
  }

  function Skipped(u: Unescaping, cs: seq<Component>): nat {
    if cs == [] then 0
    else Skipped(u, cs[..|cs| - 1]) + (if FieldsOf(u, cs[|cs| - 1].properties).uid == "" then 1 else 0)
  }

  function EmittedAll(u: Unescaping, stream: seq<DecodeItem>): seq<RawEvent> {
    if stream == [] then []
    else EmittedAll(u, stream[..|stream| - 1]) + (match stream[|stream| - 1] case Decoded(cal) => Emitted(u, cal.events) case DecodeError(_) => [])
  }

  function SkippedAll(u: Unescaping, stream: seq<DecodeItem>): nat {
    if stream == [] then 0
    else SkippedAll(u, stream[..|stream| - 1]) + (match stream[|stream| - 1] case Decoded(cal) => Skipped(u, cal.events) case DecodeError(_) => 0)
  }

  /** The number of event components inside the decoded calendars of a stream. */
  function ComponentCount(stream: seq<DecodeItem>): nat {
    if stream == [] then 0
    else ComponentCount(stream[..|stream| - 1]) + (match stream[|stream| - 1] case Decoded(cal) => |cal.events| case DecodeError(_) => 0)
  }

  lemma {:induction false} AddComponentsEffect(u: Unescaping, o: ParseOutput, cs: seq<Component>)
    ensures AddComponents(u, o, cs).events == o.events + Emitted(u, cs)
    ensures AddComponents(u, o, cs).diagnostics ==
      o.diagnostics.(skippedEventsWithoutUid := o.diagnostics.skippedEventsWithoutUid + Skipped(u, cs))
    ensures |Emitted(u, cs)| + Skipped(u, cs) == |cs|
  {
    if cs != [] {
      AddComponentsEffect(u, o, cs[..|cs| - 1]);
    }
  }

  /**
   * The diagnostics of a parse: calendars and errors count the decoder's Ok and
   * Err items, the messages are the first five error texts in order, and the
   * events are the components with a UID, in stream order.
   */
  lemma {:induction false} ParseSpecCounts(u: Unescaping, stream: seq<DecodeItem>)
    ensures ParseSpec(u, stream).events == EmittedAll(u, stream)
    ensures ParseSpec(u, stream).diagnostics.calendarsParsed == CountDecoded(stream)
    ensures ParseSpec(u, stream).diagnostics.parserErrors == |ErrorMessages(stream)|
    ensures ParseSpec(u, stream).diagnostics.skippedEventsWithoutUid == SkippedAll(u, stream)
    ensures ParseSpec(u, stream).diagnostics.parserErrorMessages ==
      ErrorMessages(stream)[..Min(|ErrorMessages(stream)|, MaxErrorMessages)]
    ensures |EmittedAll(u, stream)| + SkippedAll(u, stream) == ComponentCount(stream)
  {
    if stream != [] {
      var init := stream[..|stream| - 1];
      ParseSpecCounts(u, init);
      var o := ParseSpec(u, init);
      match stream[|stream| - 1]
      case Decoded(cal) =>
        var d := o.diagnostics;
        AddComponentsEffect(u, o.(diagnostics := d.(calendarsParsed := d.calendarsParsed + 1)), cal.events);
      case DecodeError(m) =>
        var es := ErrorMessages(init);
        assert ErrorMessages(stream) == es + [m];
        if |es| < MaxErrorMessages {
          assert (es + [m])[..|es| + 1] == es + [m];
        } else {
          assert (es + [m])[..MaxErrorMessages] == es[..MaxErrorMessages];
        }
    }
  }

  function Min(a: int, b: int): int {
    if a <= b then a else b
  }

  /** Every emitted event has a non-empty UID. */
  lemma {:induction false} EmittedHaveUid(u: Unescaping, stream: seq<DecodeItem>)
    ensures forall ev :: ev in EmittedAll(u, stream) ==> ev.uid != ""
  {
    if stream != [] {
      EmittedHaveUid(u, stream[..|stream| - 1]);
      match stream[|stream| - 1]
      case Decoded(cal) => EmittedOfComponentsHaveUid(u, cal.events);
      case DecodeError(_) =>
    }
  }

  lemma {:induction false} EmittedOfComponentsHaveUid(u: Unescaping, cs: seq<Component>)
    ensures forall ev :: ev in Emitted(u, cs) ==> ev.uid != ""
  {
    if cs != [] {
      EmittedOfComponentsHaveUid(u, cs[..|cs| - 1]);
    }
  }

  // ---------------------------------------------------------------- the two test inputs

  function Prop(name: string, value: string): Property {
    Property(name, Some(value))
  }

  /** The properties of the complete event of the first test file of parser.rs. */
  const FirstProps: seq<Property> := [
    Prop("UID", "evt-1"), Prop("SUMMARY", "CM Algo"), Prop("DESCRIPTION", "L1\\nGroupe A"),
    Prop("LOCATION", "Salle\\, B12"), Prop("DTSTART", "20250101T080000"), Prop("DTEND", "20250101T100000")]

  /** The properties of the event without UID of the same file. */
  const SecondProps: seq<Property> := [
    Prop("SUMMARY", "No UID"), Prop("DTSTART", "20250101T110000"), Prop("DTEND", "20250101T120000")]

  /** The decoded form of that file: one calendar with the two events. */
  const TwoEventStream: seq<DecodeItem> := [Decoded(Calendar([Component(FirstProps), Component(SecondProps)]))]

  const FirstEvent := RawEvent("evt-1", "CM Algo", "L1\nGroupe A", "Salle, B12", "20250101T080000", "20250101T100000")

  lemma FieldsOfSnoc(u: Unescaping, props: seq<Property>, p: Property)
    ensures FieldsOf(u, props + [p]) == ApplyProperty(u, FieldsOf(u, props), p)
  {
    assert (props + [p])[..|props|] == props;
  }

  lemma UnescapePlain(c: char, t: string)
    requires c != '\\'
    ensures UnescapeText([c] + t) == [c] + UnescapeText(t)
  {
    assert ([c] + t)[1..] == t;
  }

  lemma UnescapePair(c: char, t: string)
    requires IsEscapable(c)
    ensures UnescapeText(['\\', c] + t) == [Unescaped(c)] + UnescapeText(t)
  {
    assert (['\\', c] + t)[2..] == t;
  }

  /** A backslash-free prefix is copied through unescaping. */
  lemma {:induction false} PlainPrefix(p: string, t: string)
    requires '\\' !in p
    ensures UnescapeText(p + t) == p + UnescapeText(t)
  {
    if p != [] {
      PlainPrefix(p[1..], t);
      UnescapePlain(p[0], p[1..] + t);
      assert p + t == [p[0]] + (p[1..] + t);
      assert p + UnescapeText(t) == [p[0]] + (p[1..] + UnescapeText(t));
    } else {
      assert p + t == t;
    }
  }

  lemma EscapedLineBreakUnescaped()
    ensures UnescapeText(['\\', 'n'] + "Groupe A") == "\nGroupe A"
  {
    UnescapeTextNoBackslash("Groupe A");
    UnescapePair('n', "Groupe A");
  }

  lemma DescriptionPrefixCopied()
    ensures UnescapeText("L1" + (['\\', 'n'] + "Groupe A")) == "L1" + UnescapeText(['\\', 'n'] + "Groupe A")
  {
    PlainPrefix("L1", ['\\', 'n'] + "Groupe A");
  }

  lemma DescriptionUnescaped()
    ensures UnescapeText("L1\\nGroupe A") == "L1\nGroupe A"
  {
    EscapedLineBreakUnescaped();
    DescriptionPrefixCopied();
    assert "L1\\nGroupe A" == "L1" + (['\\', 'n'] + "Groupe A");
  }

  lemma EscapedCommaUnescaped()
    ensures UnescapeText(['\\', ','] + " B12") == ", B12"
  {
    UnescapeTextNoBackslash(" B12");
    UnescapePair(',', " B12");
  }

  lemma LocationPrefixCopied()
    ensures UnescapeText("Salle" + (['\\', ','] + " B12")) == "Salle" + UnescapeText(['\\', ','] + " B12")
  {
    PlainPrefix("Salle", ['\\', ','] + " B12");
  }

  lemma LocationUnescaped()
    ensures UnescapeText("Salle\\, B12") == "Salle, B12"
  {
    EscapedCommaUnescaped();
    LocationPrefixCopied();
    assert "Salle\\, B12" == "Salle" + (['\\', ','] + " B12");
  }

  /** In the first event, each field is set by exactly one property. */
  lemma FirstPropsLast(name: string, i: nat)
    requires i < |FirstProps| && FirstProps[i].name == name
    requires forall j :: i < j < |FirstProps| ==> FirstProps[j].name != name
    ensures LastValue(FirstProps, name) == FirstProps[i].value.GetOr("")
  {
    LastValueIsLast(FirstProps, name, i);
  }

  lemma FirstPropsTexts()
    ensures LastValue(FirstProps, "UID") == "evt-1" && LastValue(FirstProps, "SUMMARY") == "CM Algo"
    ensures LastValue(FirstProps, "DESCRIPTION") == "L1\\nGroupe A"
  {
    FirstPropsLast("UID", 0);
    FirstPropsLast("SUMMARY", 1);
    FirstPropsLast("DESCRIPTION", 2);
  }

  lemma FirstPropsTimes()
    ensures LastValue(FirstProps, "LOCATION") == "Salle\\, B12"
    ensures LastValue(FirstProps, "DTSTART") == "20250101T080000" && LastValue(FirstProps, "DTEND") == "20250101T100000"
  {
    FirstPropsLast("LOCATION", 3);
    FirstPropsLast("DTSTART", 4);
    FirstPropsLast("DTEND", 5);
  }

  /** A pattern of a backslash and one character, met once in a text with no other backslash, is replaced there. */
  lemma ReplaceOnce(p: string, pat: string, rep: string, t: string)
    requires |pat| == 2 && pat[0] == '\\' && '\\' !in p && '\\' !in t
    ensures ReplaceAll(p + pat + t, pat, rep) == p + rep + t
  {
    var s := p + pat + t;
    forall j | 0 <= j < |p| ensures !OccursAt(s, pat, j) {
      assert s[j] == p[j];
    }
    assert s[|p|..|p| + 2] == pat;
    IndexOfFirst(s, pat, |p|);
    assert s[..|p|] == p && s[|p| + 2..] == t;
    NoBackslashNoMatch(t, pat);
  }

  /** In a text whose only backslash is followed by `c`, no other backslash pair occurs. */
  lemma EscapeOnlyAt(p: string, c: char, t: string, pat: string)
    requires '\\' !in p && '\\' !in t && c != '\\'
    requires |pat| == 2 && pat[0] == '\\' && pat[1] != c
    ensures !Contains(p + ['\\', c] + t, pat)
  {
    var s := p + ['\\', c] + t;
    forall k | 0 <= k <= |s| - 2 ensures !OccursAt(s, pat, k) {
      if k < |p| {
        assert s[k] == p[k];
      } else if k == |p| {
        assert s[k + 1] == c;
      } else if k == |p| + 1 {
        assert s[k] == c;
      } else {
        assert s[k] == t[k - |p| - 2];
      }
    }
  }

  /** As written, an escaped line break between backslash-free texts is decoded. */
  lemma UnescapeIcalLineBreak(p: string, t: string)
    requires '\\' !in p && '\\' !in t
    ensures UnescapeIcal(p + ['\\', 'n'] + t) == p + ['\n'] + t
  {
    ReplaceOnce(p, "\\n", "\n", t);
    var x := p + ['\n'] + t;
    assert '\\' !in x;
    NoBackslashNoMatch(x, "\\N");
    NoBackslashNoMatch(x, "\\,");
    NoBackslashNoMatch(x, "\\;");
    NoBackslashNoMatch(x, "\\\\");
  }

  /** As written, an escaped comma between backslash-free texts is decoded. */
  lemma UnescapeIcalComma(p: string, t: string)
    requires '\\' !in p && '\\' !in t
    ensures UnescapeIcal(p + ['\\', ','] + t) == p + [','] + t
  {
    EscapeOnlyAt(p, ',', t, "\\n");
    EscapeOnlyAt(p, ',', t, "\\N");
    ReplaceOnce(p, "\\,", ",", t);
    var x := p + [','] + t;
    assert '\\' !in x;
    NoBackslashNoMatch(x, "\\;");
    NoBackslashNoMatch(x, "\\\\");
  }

  /** Both unescapings decode the first event's description. */
  lemma DescriptionUnescapedBoth(u: Unescaping)
    ensures Unescape(u, "L1\\nGroupe A") == "L1\nGroupe A"
  {
    assert "L1\\nGroupe A" == "L1" + ['\\', 'n'] + "Groupe A";
    assert "L1\nGroupe A" == "L1" + ['\n'] + "Groupe A";
    if u == AsWritten {
      UnescapeIcalLineBreak("L1", "Groupe A");
    } else {
      DescriptionUnescaped();
    }
  }

  /** Both unescapings decode the first event's location. */
  lemma LocationUnescapedBoth(u: Unescaping)
    ensures Unescape(u, "Salle\\, B12") == "Salle, B12"
  {
    assert "Salle\\, B12" == "Salle" + ['\\', ','] + " B12";
    assert "Salle, B12" == "Salle" + [','] + " B12";
    if u == AsWritten {
      UnescapeIcalComma("Salle", " B12");
    } else {
      LocationUnescaped();
    }
  }

  /** Both unescapings leave the first event's summary as it is. */
  lemma SummaryUnescapedBoth(u: Unescaping)
    ensures Unescape(u, "CM Algo") == "CM Algo"
  {
    UnescapeIcalNoBackslash("CM Algo");
    UnescapeTextNoBackslash("CM Algo");
  }

  lemma FirstPropsFields(u: Unescaping)
    ensures FieldsOf(u, FirstProps) == FirstEvent
  {
    FieldsOfLastValue(u, FirstProps);
    FirstPropsTexts();
    FirstPropsTimes();
    DescriptionUnescapedBoth(u);
    LocationUnescapedBoth(u);
    SummaryUnescapedBoth(u);
  }

  lemma SecondPropsFields(u: Unescaping)
    ensures FieldsOf(u, SecondProps).uid == ""
  {
    var ps := SecondProps;
    FieldsOfSnoc(u, [], ps[0]);
    FieldsOfSnoc(u, ps[..1], ps[1]);
    FieldsOfSnoc(u, ps[..2], ps[2]);
    assert [ps[0]] == ps[..1] && ps[..1] + [ps[1]] == ps[..2] && ps[..2] + [ps[2]] == ps;
  }

  /**
   * The first test of parser.rs: one calendar, one complete event and one
   * without UID give one event, one skipped component and no errors, under
   * the replace chain as under the one-pass unescaping.
   */
  lemma TwoEventScenario(u: Unescaping)
    ensures ParseSpec(u, TwoEventStream).diagnostics == ParseDiagnostics(1, 0, 1, [])
    ensures ParseSpec(u, TwoEventStream).events == [FirstEvent]
  {
    var cs := [Component(FirstProps), Component(SecondProps)];
    assert TwoEventStream[..0] == [];
    var started := ParseOutput([], ParseDiagnostics(1, 0, 0, []));
    TwoComponents(u, started);
    assert ParseSpec(u, TwoEventStream) == AddComponents(u, started, cs);
  }

  /** The two components of the first test, added to an output with one calendar counted. */
  lemma TwoComponents(u: Unescaping, started: ParseOutput)
    requires started == ParseOutput([], ParseDiagnostics(1, 0, 0, []))
    ensures AddComponents(u, started, [Component(FirstProps), Component(SecondProps)])
      == ParseOutput([FirstEvent], ParseDiagnostics(1, 0, 1, []))
  {
    var cs := [Component(FirstProps), Component(SecondProps)];
    assert cs[..1] == [cs[0]] && cs[..1][..0] == [];
    var first := AddComponent(u, started, cs[0]);
    assert first == ParseOutput([FirstEvent], ParseDiagnostics(1, 0, 0, [])) by {
      FirstPropsFields(u);
    }
    assert AddComponents(u, started, cs[..1]) == first;
    assert AddComponent(u, first, cs[1]) == ParseOutput([FirstEvent], ParseDiagnostics(1, 0, 1, [])) by {
      SecondPropsFields(u);
    }
  }

  /** A file the decoder rejects yields one error, its message, and no events. */
  lemma TruncatedScenario(u: Unescaping, message: string)
    ensures ParseSpec(u, [DecodeError(message)]) == ParseOutput([], ParseDiagnostics(0, 1, 0, [message]))
  {
    assert [DecodeError(message)][..0] == [];
  }
}
