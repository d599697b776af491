/** The two interface languages of the frontend. */
module Lang {
  datatype Lang = Fr | En
}

/**
 * The import messages the frontend builds from the core's parse diagnostics
 * (`parseDiagnostics.ts`): a warning when some calendars failed to decode,
 * and the message shown when an import yields nothing.  Numbers are shown in
 * decimal, as template strings render them.
 */
module ParseDiagnostics {
  import opened Base
  import opened Text
  import opened Lang
  import opened IcsParser

  /** Where the ICS text came from: an imported file or a remote calendar. */
  datatype Context = File | CalendarSource

  /** Both pieces placed between three texts show up in the result. */
  lemma ContainsBoth(a: string, t: string, b: string, u: string, c: string)
    ensures Contains(a + t + b + u + c, t) && Contains(a + t + b + u + c, u)
  {
    Pieces(a, t, b + u + c);
    assert a + t + b + u + c == a + t + (b + u + c);
    Pieces(a + t + b, u, c);
  }

  /**
   * `buildParserWarningMessage`: no warning unless the diagnostics are there
   * and report at least one decoding error; the warning names both the error
   * count and the number of events skipped for want of a UID.
   */
  function WarningMessage(diagnostics: Option<ParseDiagnostics>, lang: Lang): (r: Option<string>)
    ensures r.None? <==> diagnostics.None? || diagnostics.value.parserErrors == 0
    ensures r.Some? ==>
      && Contains(r.value, NatToString(diagnostics.value.parserErrors))
      && Contains(r.value, NatToString(diagnostics.value.skippedEventsWithoutUid))
  {
    if diagnostics.None? || diagnostics.value.parserErrors == 0 then None
    else
      var errors := NatToString(diagnostics.value.parserErrors);
      var skipped := NatToString(diagnostics.value.skippedEventsWithoutUid);
      var (opening, middle, closing) :=
        if lang == Fr then
          ("Import terminé avec avertissements: ", " erreur(s) de parsing, ", " événement(s) ignoré(s) sans UID.")
        else
          ("Import finished with warnings: ", " parsing error(s), ", " event(s) skipped without UID.");
      ContainsBoth(opening, errors, middle, skipped, closing);
      Some(opening + errors + middle + skipped + closing)
  }

  /** The error count of the fatal message: zero when there are no diagnostics. */
  function FatalErrorCount(diagnostics: Option<ParseDiagnostics>): nat {
    if diagnostics.Some? then diagnostics.value.parserErrors else 0
  }

  /** `" " + sample` for the first kept error message, when there is one and it is not empty. */
  function FatalDetail(diagnostics: Option<ParseDiagnostics>): (r: string)
    ensures r != [] <==> diagnostics.Some? && |diagnostics.value.parserErrorMessages| > 0
                         && diagnostics.value.parserErrorMessages[0] != []
    ensures r != [] ==> r == " " + diagnostics.value.parserErrorMessages[0]
  {
    if diagnostics.Some? && |diagnostics.value.parserErrorMessages| > 0
       && diagnostics.value.parserErrorMessages[0] != []
    then " " + diagnostics.value.parserErrorMessages[0]
    else ""
  }

  /** The text around the error count, one of four templates chosen by language and context. */
  function FatalTemplate(lang: Lang, context: Context): (string, string) {
    match (lang, context)
    case (Fr, File) => ("Le fichier ICS est invalide (", " erreur(s)).")
    case (Fr, CalendarSource) => ("Le calendrier ICS est invalide (", " erreur(s)).")
    case (En, File) => ("Invalid ICS file (", " error(s)).")
    case (En, CalendarSource) => ("Invalid ICS calendar (", " error(s)).")
  }

  /** `buildParserFatalMessage`. */
  function FatalMessage(diagnostics: Option<ParseDiagnostics>, lang: Lang, context: Context): (r: string)
    ensures Contains(r, NatToString(FatalErrorCount(diagnostics)))
    ensures EndsWith(r, FatalDetail(diagnostics))
    ensures StartsWith(r, FatalTemplate(lang, context).0)
  {
    var (opening, closing) := FatalTemplate(lang, context);
    var count := NatToString(FatalErrorCount(diagnostics));
    var detail := FatalDetail(diagnostics);
    Assembled(opening, count, closing, detail);
    opening + count + closing + detail
  }

  /** Text laid out as `a + b + c + d` starts with `a`, holds `b` and ends with `d`. */
  lemma Assembled(a: string, b: string, c: string, d: string)
    ensures var r := a + b + c + d; StartsWith(r, a) && Contains(r, b) && EndsWith(r, d)
  {
    var r := a + b + c + d;
    Pieces(a, b, c + d);
    assert r == a + b + (c + d);
    assert r[|r| - |d|..] == d;
  }

  /** A fatal message tells which of the four templates produced it. */
  lemma FatalMessageTells(d1: Option<ParseDiagnostics>, l1: Lang, c1: Context,
                          d2: Option<ParseDiagnostics>, l2: Lang, c2: Context)
    requires FatalMessage(d1, l1, c1) == FatalMessage(d2, l2, c2)
    ensures l1 == l2 && c1 == c2
  {
    FatalMessageStart(d1, l1, c1);
    FatalMessageStart(d2, l2, c2);
  }

  /** The characters of a fatal message that identify its template. */
  lemma FatalMessageStart(d: Option<ParseDiagnostics>, lang: Lang, context: Context)
    ensures var m := FatalMessage(d, lang, context);
      && |m| > 12
      && m[0] == (if lang == Fr then 'L' else 'I')
      && (lang == Fr ==> m[3] == (if context == File then 'f' else 'c'))
      && (lang == En ==> m[12] == (if context == File then 'f' else 'c'))
  {
    var m := FatalMessage(d, lang, context);
    var o := FatalTemplate(lang, context).0;
    TemplateChars(lang, context);
    assert m[..|o|] == o;
    assert m[0] == m[..|o|][0] && m[3] == m[..|o|][3] && m[12] == m[..|o|][12];
  }

  lemma TemplateChars(lang: Lang, context: Context)
    ensures var o := FatalTemplate(lang, context).0;
      && |o| > 12
      && o[0] == (if lang == Fr then 'L' else 'I')
      && (lang == Fr ==> o[3] == (if context == File then 'f' else 'c'))
      && (lang == En ==> o[12] == (if context == File then 'f' else 'c'))
  {
  }
}
