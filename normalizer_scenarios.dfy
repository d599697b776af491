/**
 * The two unit tests of the normaliser (agendum-core/src/normalizer.rs,
 * `test_heuristics_and_duration` and `test_additional_patterns`), restated
 * as lemmas about the model with the reference offset fixed to UTC.
 *
 * Each summary is described character by character by a predicate, and a
 * lemma shows that the literal of the test satisfies it; the classification
 * is then followed pattern by pattern and position by position.
 */
module NormalizerScenarios {
  import opened Base
  import opened Text
  import opened Civil
  import opened IcsParser
  import opened SummaryPatterns
  import opened Normalizer

  // ---------------------------------------------------------------- summaries

  /** The summary `CM PRORES`, character by character. */
  predicate CmProres(s: string) {
    && |s| == 9
    && s[0] == 'C' && s[1] == 'M' && s[2] == ' ' && s[3] == 'P' && s[4] == 'R' && s[5] == 'O' && s[6] == 'R' && s[7] == 'E'
    && s[8] == 'S'
  }

  lemma CmProresLineFree1(s: string)
    requires CmProres(s)
    ensures LineFree(s, 3)
  {
    assert LineFree(s, 9);
    assert LineFree(s, 8);
    assert LineFree(s, 7);
    assert LineFree(s, 6);
    assert LineFree(s, 5);
    assert LineFree(s, 4);
    assert LineFree(s, 3);
  }

  lemma CmProresTypeAt0(s: string)
    requires CmProres(s)
    ensures TypeAt(Tokens, s, 0) == Some(2)
  {
    assert AltMatch(Tokens, s, 0, 0);
    TypeAtToken(s, 0, 0);
  }

  /** The first pattern matches: the type opens the text. */
  lemma CmProresTypeFirst(s: string)
    requires CmProres(s)
    ensures TypeThenSubject(Tokens, s) == Some((s[..2], s[3..]))
  {
    CmProresTypeAt0(s);
    assert Run(s, 3, true) == 0;
    assert Run(s, 2, true) == 1;
    CmProresLineFree1(s);
  }

  lemma CmProresClassify(s: string)
    requires CmProres(s)
    ensures Classify(Tokens, s) == (s[..2], s[3..])
  {
    CmProresTypeFirst(s);
  }

  lemma CmProresTypeText(s: string)
    requires CmProres(s)
    ensures Upper(s[..2]) == "CM"
  {
  }

  lemma CmProresSubjectText(s: string)
    requires CmProres(s)
    ensures s[3..] == "PRORES"
  {
  }

  lemma CmProresSubjectTrimmed(s: string)
    requires CmProres(s)
    ensures Trim(RustSpace, s[3..]) == s[3..]
  {
    TrimTrimmed(RustSpace, s[3..]);
  }

  /** The summary normalises to type `CM` and subject `PRORES`. */
  lemma CmProresKind(s: string)
    requires CmProres(s)
    ensures TypeAndSubject(s) == ("CM", "PRORES")
  {
    CmProresClassify(s);
    TypeAndSubjectOf(s, s[..2], s[3..]);
    CmProresTypeText(s);
    CmProresSubjectTrimmed(s);
    CmProresSubjectText(s);
  }

  /** The summary `IPD TP Cla 1`, character by character. */
  predicate IpdTpCla(s: string) {
    && |s| == 12
    && s[0] == 'I' && s[1] == 'P' && s[2] == 'D' && s[3] == ' ' && s[4] == 'T' && s[5] == 'P' && s[6] == ' ' && s[7] == 'C'
    && s[8] == 'l' && s[9] == 'a' && s[10] == ' ' && s[11] == '1'
  }

  /** The first pattern does not match: the text does not open with a type. */
  lemma IpdTpClaNoTypeFirst(s: string)
    requires IpdTpCla(s)
    ensures TypeThenSubject(Tokens, s).None?
  {
    TypeAtOpening(s, 0);
  }

  /** The second pattern does not match: the text has no dash. */
  lemma IpdTpClaNoDashRule(s: string)
    requires IpdTpCla(s)
    ensures SubjectThen(Tokens, DashTail, s).None?
  {
    assert CharFree(s, 12, '-');
    assert CharFree(s, 11, '-');
    assert CharFree(s, 10, '-');
    assert CharFree(s, 9, '-');
    assert CharFree(s, 8, '-');
    assert CharFree(s, 7, '-');
    assert CharFree(s, 6, '-');
    assert CharFree(s, 5, '-');
    assert CharFree(s, 4, '-');
    assert CharFree(s, 3, '-');
    assert CharFree(s, 2, '-');
    assert CharFree(s, 1, '-');
    assert CharFree(s, 0, '-');
    NoDashNoDashRule(Tokens, s);
  }

  lemma IpdTpClaSpaceFrom1(s: string)
    requires IpdTpCla(s)
    ensures LazyFrom(Tokens, SpaceTail, s, 1) == LazyFrom(Tokens, SpaceTail, s, 2)
  {
    SpaceTailNone(Tokens, s, 1);
    LazyStep(Tokens, SpaceTail, s, 1);
  }

  lemma IpdTpClaSpaceFrom2(s: string)
    requires IpdTpCla(s)
    ensures LazyFrom(Tokens, SpaceTail, s, 2) == LazyFrom(Tokens, SpaceTail, s, 3)
  {
    SpaceTailNone(Tokens, s, 2);
    LazyStep(Tokens, SpaceTail, s, 2);
  }

  lemma IpdTpClaTypeAt4(s: string)
    requires IpdTpCla(s)
    ensures TypeAt(Tokens, s, 4) == Some(2)
  {
    assert AltMatch(Tokens, s, 4, 2);
    TypeAtToken(s, 4, 2);
  }

  lemma IpdTpClaSpaceFrom3(s: string)
    requires IpdTpCla(s)
    ensures LazyFrom(Tokens, SpaceTail, s, 3) == Some((s[4..6], s[..3]))
  {
    assert Run(s, 4, false) == 0;
    assert Run(s, 3, false) == 1;
    IpdTpClaTypeAt4(s);
    SpaceTailType(Tokens, s, 3, 4, 2);
    LazyHit(Tokens, SpaceTail, s, 3, 4, 2);
  }

  /** The third pattern matches: the subject is the text before the first white space followed by a type. */
  lemma IpdTpClaSpaceRule(s: string)
    requires IpdTpCla(s)
    ensures SubjectThen(Tokens, SpaceTail, s) == Some((s[4..6], s[..3]))
  {
    IpdTpClaSpaceFrom1(s);
    IpdTpClaSpaceFrom2(s);
    IpdTpClaSpaceFrom3(s);
  }

  lemma IpdTpClaClassify(s: string)
    requires IpdTpCla(s)
    ensures Classify(Tokens, s) == (s[4..6], s[..3])
  {
    IpdTpClaNoTypeFirst(s);
    IpdTpClaNoDashRule(s);
    IpdTpClaSpaceRule(s);
  }

  lemma IpdTpClaTypeText(s: string)
    requires IpdTpCla(s)
    ensures Upper(s[4..6]) == "TP"
  {
  }

  lemma IpdTpClaSubjectText(s: string)
    requires IpdTpCla(s)
    ensures s[..3] == "IPD"
  {
  }

  lemma IpdTpClaSubjectTrimmed(s: string)
    requires IpdTpCla(s)
    ensures Trim(RustSpace, s[..3]) == s[..3]
  {
    TrimTrimmed(RustSpace, s[..3]);
  }

  /** The summary normalises to type `TP` and subject `IPD`. */
  lemma IpdTpClaKind(s: string)
    requires IpdTpCla(s)
    ensures TypeAndSubject(s) == ("TP", "IPD")
  {
    IpdTpClaClassify(s);
    TypeAndSubjectOf(s, s[4..6], s[..3]);
    IpdTpClaTypeText(s);
    IpdTpClaSubjectTrimmed(s);
    IpdTpClaSubjectText(s);
  }

  /** The summary `TD Standard r\U{00E9}sidentiel`, character by character. */
  predicate TdStandard(s: string) {
    && |s| == 23
    && s[0] == 'T' && s[1] == 'D' && s[2] == ' ' && s[3] == 'S' && s[4] == 't' && s[5] == 'a' && s[6] == 'n' && s[7] == 'd'
    && s[8] == 'a' && s[9] == 'r' && s[10] == 'd' && s[11] == ' ' && s[12] == 'r' && s[13] == '\U{00E9}' && s[14] == 's' && s[15] == 'i'
    && s[16] == 'd' && s[17] == 'e' && s[18] == 'n' && s[19] == 't' && s[20] == 'i' && s[21] == 'e' && s[22] == 'l'
  }

  lemma TdStandardLineFree1(s: string)
    requires TdStandard(s)
    ensures LineFree(s, 12)
  {
    assert LineFree(s, 23);
    assert LineFree(s, 22);
    assert LineFree(s, 21);
    assert LineFree(s, 20);
    assert LineFree(s, 19);
    assert LineFree(s, 18);
    assert LineFree(s, 17);
    assert LineFree(s, 16);
    assert LineFree(s, 15);
    assert LineFree(s, 14);
    assert LineFree(s, 13);
    assert LineFree(s, 12);
  }

  lemma TdStandardLineFree2(s: string)
    requires TdStandard(s)
    ensures LineFree(s, 3)
  {
    TdStandardLineFree1(s);
    assert LineFree(s, 11);
    assert LineFree(s, 10);
    assert LineFree(s, 9);
    assert LineFree(s, 8);
    assert LineFree(s, 7);
    assert LineFree(s, 6);
    assert LineFree(s, 5);
    assert LineFree(s, 4);
    assert LineFree(s, 3);
  }

  lemma TdStandardTypeAt0(s: string)
    requires TdStandard(s)
    ensures TypeAt(Tokens, s, 0) == Some(2)
  {
    assert AltMatch(Tokens, s, 0, 1);
    TypeAtToken(s, 0, 1);
  }

  /** The first pattern matches: the type opens the text. */
  lemma TdStandardTypeFirst(s: string)
    requires TdStandard(s)
    ensures TypeThenSubject(Tokens, s) == Some((s[..2], s[3..]))
  {
    TdStandardTypeAt0(s);
    assert Run(s, 3, true) == 0;
    assert Run(s, 2, true) == 1;
    TdStandardLineFree2(s);
  }

  lemma TdStandardClassify(s: string)
    requires TdStandard(s)
    ensures Classify(Tokens, s) == (s[..2], s[3..])
  {
    TdStandardTypeFirst(s);
  }

  lemma TdStandardTypeText(s: string)
    requires TdStandard(s)
    ensures Upper(s[..2]) == "TD"
  {
  }

  lemma TdStandardSubjectText(s: string)
    requires TdStandard(s)
    ensures s[3..] == "Standard r\U{00E9}sidentiel"
  {
  }

  lemma TdStandardSubjectTrimmed(s: string)
    requires TdStandard(s)
    ensures Trim(RustSpace, s[3..]) == s[3..]
  {
    TrimTrimmed(RustSpace, s[3..]);
  }

  /** The summary normalises to type `TD` and subject `Standard r\U{00E9}sidentiel`. */
  lemma TdStandardKind(s: string)
    requires TdStandard(s)
    ensures TypeAndSubject(s) == ("TD", "Standard r\U{00E9}sidentiel")
  {
    TdStandardClassify(s);
    TypeAndSubjectOf(s, s[..2], s[3..]);
    TdStandardTypeText(s);
    TdStandardSubjectTrimmed(s);
    TdStandardSubjectText(s);
  }

  /** The summary `R\U{00E9}union p\U{00E9}dagogique Responsables formation`, character by character. */
  predicate ReunionPedagogique(s: string) {
    && |s| == 42
    && s[0] == 'R' && s[1] == '\U{00E9}' && s[2] == 'u' && s[3] == 'n' && s[4] == 'i' && s[5] == 'o' && s[6] == 'n' && s[7] == ' '
    && s[8] == 'p' && s[9] == '\U{00E9}' && s[10] == 'd' && s[11] == 'a' && s[12] == 'g' && s[13] == 'o' && s[14] == 'g' && s[15] == 'i'
    && s[16] == 'q' && s[17] == 'u' && s[18] == 'e' && s[19] == ' ' && s[20] == 'R' && s[21] == 'e' && s[22] == 's' && s[23] == 'p'
    && s[24] == 'o' && s[25] == 'n' && s[26] == 's' && s[27] == 'a' && s[28] == 'b' && s[29] == 'l' && s[30] == 'e' && s[31] == 's'
    && s[32] == ' ' && s[33] == 'f' && s[34] == 'o' && s[35] == 'r' && s[36] == 'm' && s[37] == 'a' && s[38] == 't' && s[39] == 'i'
    && s[40] == 'o' && s[41] == 'n'
  }

  lemma ReunionPedagogiqueLineFree1(s: string)
    requires ReunionPedagogique(s)
    ensures LineFree(s, 31)
  {
    assert LineFree(s, 42);
    assert LineFree(s, 41);
    assert LineFree(s, 40);
    assert LineFree(s, 39);
    assert LineFree(s, 38);
    assert LineFree(s, 37);
    assert LineFree(s, 36);
    assert LineFree(s, 35);
    assert LineFree(s, 34);
    assert LineFree(s, 33);
    assert LineFree(s, 32);
    assert LineFree(s, 31);
  }

  lemma ReunionPedagogiqueLineFree2(s: string)
    requires ReunionPedagogique(s)
    ensures LineFree(s, 19)
  {
    ReunionPedagogiqueLineFree1(s);
    assert LineFree(s, 30);
    assert LineFree(s, 29);
    assert LineFree(s, 28);
    assert LineFree(s, 27);
    assert LineFree(s, 26);
    assert LineFree(s, 25);
    assert LineFree(s, 24);
    assert LineFree(s, 23);
    assert LineFree(s, 22);
    assert LineFree(s, 21);
    assert LineFree(s, 20);
    assert LineFree(s, 19);
  }

  lemma ReunionPedagogiqueLineFree3(s: string)
    requires ReunionPedagogique(s)
    ensures LineFree(s, 8)
  {
    ReunionPedagogiqueLineFree2(s);
    assert LineFree(s, 18);
    assert LineFree(s, 17);
    assert LineFree(s, 16);
    assert LineFree(s, 15);
    assert LineFree(s, 14);
    assert LineFree(s, 13);
    assert LineFree(s, 12);
    assert LineFree(s, 11);
    assert LineFree(s, 10);
    assert LineFree(s, 9);
    assert LineFree(s, 8);
  }

  lemma ReunionPedagogiqueTypeAt0(s: string)
    requires ReunionPedagogique(s)
    ensures TypeAt(Tokens, s, 0) == Some(7)
  {
    assert AltMatch(Tokens, s, 0, 7);
    TypeAtToken(s, 0, 7);
  }

  /** The first pattern matches: the type opens the text. */
  lemma ReunionPedagogiqueTypeFirst(s: string)
    requires ReunionPedagogique(s)
    ensures TypeThenSubject(Tokens, s) == Some((s[..7], s[8..]))
  {
    ReunionPedagogiqueTypeAt0(s);
    assert Run(s, 8, true) == 0;
    assert Run(s, 7, true) == 1;
    ReunionPedagogiqueLineFree3(s);
  }

  lemma ReunionPedagogiqueClassify(s: string)
    requires ReunionPedagogique(s)
    ensures Classify(Tokens, s) == (s[..7], s[8..])
  {
    ReunionPedagogiqueTypeFirst(s);
  }

  lemma ReunionPedagogiqueTypeText(s: string)
    requires ReunionPedagogique(s)
    ensures Upper(s[..7]) == "RÉUNION"
  {
  }

  lemma ReunionPedagogiqueSubjectText(s: string)
    requires ReunionPedagogique(s)
    ensures s[8..] == "p\U{00E9}dagogique Responsables formation"
  {
  }

  lemma ReunionPedagogiqueSubjectTrimmed(s: string)
    requires ReunionPedagogique(s)
    ensures Trim(RustSpace, s[8..]) == s[8..]
  {
    TrimTrimmed(RustSpace, s[8..]);
  }

  /** The summary normalises to type `RÉUNION` and subject `p\U{00E9}dagogique Responsables formation`. */
  lemma ReunionPedagogiqueKind(s: string)
    requires ReunionPedagogique(s)
    ensures TypeAndSubject(s) == ("RÉUNION", "p\U{00E9}dagogique Responsables formation")
  {
    ReunionPedagogiqueClassify(s);
    TypeAndSubjectOf(s, s[..7], s[8..]);
    ReunionPedagogiqueTypeText(s);
    ReunionPedagogiqueSubjectTrimmed(s);
    ReunionPedagogiqueSubjectText(s);
  }

  /** The summary `Autre chose`, character by character. */
  predicate AutreChose(s: string) {
    && |s| == 11
    && s[0] == 'A' && s[1] == 'u' && s[2] == 't' && s[3] == 'r' && s[4] == 'e' && s[5] == ' ' && s[6] == 'c' && s[7] == 'h'
    && s[8] == 'o' && s[9] == 's' && s[10] == 'e'
  }

  /** The first pattern does not match: the text does not open with a type. */
  lemma AutreChoseNoTypeFirst(s: string)
    requires AutreChose(s)
    ensures TypeThenSubject(Tokens, s).None?
  {
    TypeAtOpening(s, 0);
  }

  /** The second pattern does not match: the text has no dash. */
  lemma AutreChoseNoDashRule(s: string)
    requires AutreChose(s)
    ensures SubjectThen(Tokens, DashTail, s).None?
  {
    assert CharFree(s, 11, '-');
    assert CharFree(s, 10, '-');
    assert CharFree(s, 9, '-');
    assert CharFree(s, 8, '-');
    assert CharFree(s, 7, '-');
    assert CharFree(s, 6, '-');
    assert CharFree(s, 5, '-');
    assert CharFree(s, 4, '-');
    assert CharFree(s, 3, '-');
    assert CharFree(s, 2, '-');
    assert CharFree(s, 1, '-');
    assert CharFree(s, 0, '-');
    NoDashNoDashRule(Tokens, s);
  }

  lemma AutreChoseSpaceFrom1(s: string)
    requires AutreChose(s)
    ensures LazyFrom(Tokens, SpaceTail, s, 1) == LazyFrom(Tokens, SpaceTail, s, 2)
  {
    SpaceTailNone(Tokens, s, 1);
    LazyStep(Tokens, SpaceTail, s, 1);
  }

  lemma AutreChoseSpaceFrom2(s: string)
    requires AutreChose(s)
    ensures LazyFrom(Tokens, SpaceTail, s, 2) == LazyFrom(Tokens, SpaceTail, s, 3)
  {
    SpaceTailNone(Tokens, s, 2);
    LazyStep(Tokens, SpaceTail, s, 2);
  }

  lemma AutreChoseSpaceFrom3(s: string)
    requires AutreChose(s)
    ensures LazyFrom(Tokens, SpaceTail, s, 3) == LazyFrom(Tokens, SpaceTail, s, 4)
  {
    SpaceTailNone(Tokens, s, 3);
    LazyStep(Tokens, SpaceTail, s, 3);
  }

  lemma AutreChoseSpaceFrom4(s: string)
    requires AutreChose(s)
    ensures LazyFrom(Tokens, SpaceTail, s, 4) == LazyFrom(Tokens, SpaceTail, s, 5)
  {
    SpaceTailNone(Tokens, s, 4);
    LazyStep(Tokens, SpaceTail, s, 4);
  }

  lemma AutreChoseNoTypeAt6(s: string)
    requires AutreChose(s)
    ensures TypeAt(Tokens, s, 6).None?
  {
    assert FoldChar(s[6]) == 'c' && FoldChar(s[7]) == 'h';
    TypeAtOpening(s, 6);
  }

  lemma AutreChoseSpaceFrom5(s: string)
    requires AutreChose(s)
    ensures LazyFrom(Tokens, SpaceTail, s, 5) == LazyFrom(Tokens, SpaceTail, s, 6)
  {
    assert Run(s, 6, false) == 0;
    assert Run(s, 5, false) == 1;
    AutreChoseNoTypeAt6(s);
    SpaceTailNoType(Tokens, s, 5, 6);
    LazyStep(Tokens, SpaceTail, s, 5);
  }

  lemma AutreChoseSpaceFrom6(s: string)
    requires AutreChose(s)
    ensures LazyFrom(Tokens, SpaceTail, s, 6) == LazyFrom(Tokens, SpaceTail, s, 7)
  {
    SpaceTailNone(Tokens, s, 6);
    LazyStep(Tokens, SpaceTail, s, 6);
  }

  lemma AutreChoseSpaceFrom7(s: string)
    requires AutreChose(s)
    ensures LazyFrom(Tokens, SpaceTail, s, 7) == LazyFrom(Tokens, SpaceTail, s, 8)
  {
    SpaceTailNone(Tokens, s, 7);
    LazyStep(Tokens, SpaceTail, s, 7);
  }

  lemma AutreChoseSpaceFrom8(s: string)
    requires AutreChose(s)
    ensures LazyFrom(Tokens, SpaceTail, s, 8) == LazyFrom(Tokens, SpaceTail, s, 9)
  {
    SpaceTailNone(Tokens, s, 8);
    LazyStep(Tokens, SpaceTail, s, 8);
  }

  lemma AutreChoseSpaceFrom9(s: string)
    requires AutreChose(s)
    ensures LazyFrom(Tokens, SpaceTail, s, 9) == LazyFrom(Tokens, SpaceTail, s, 10)
  {
    SpaceTailNone(Tokens, s, 9);
    LazyStep(Tokens, SpaceTail, s, 9);
  }

  lemma AutreChoseSpaceFrom10(s: string)
    requires AutreChose(s)
    ensures LazyFrom(Tokens, SpaceTail, s, 10) == LazyFrom(Tokens, SpaceTail, s, 11)
  {
    SpaceTailNone(Tokens, s, 10);
    LazyStep(Tokens, SpaceTail, s, 10);
  }

  lemma AutreChoseSpaceFrom11(s: string)
    requires AutreChose(s)
    ensures LazyFrom(Tokens, SpaceTail, s, 11).None?
  {
    SpaceTailNone(Tokens, s, 11);
    LazyLast(Tokens, SpaceTail, s);
  }

  /** The third pattern does not match: no white space is followed by a type. */
  lemma AutreChoseSpaceRule(s: string)
    requires AutreChose(s)
    ensures SubjectThen(Tokens, SpaceTail, s).None?
  {
    AutreChoseSpaceFrom1(s);
    AutreChoseSpaceFrom2(s);
    AutreChoseSpaceFrom3(s);
    AutreChoseSpaceFrom4(s);
    AutreChoseSpaceFrom5(s);
    AutreChoseSpaceFrom6(s);
    AutreChoseSpaceFrom7(s);
    AutreChoseSpaceFrom8(s);
    AutreChoseSpaceFrom9(s);
    AutreChoseSpaceFrom10(s);
    AutreChoseSpaceFrom11(s);
  }

  lemma AutreChoseClassify(s: string)
    requires AutreChose(s)
    ensures Classify(Tokens, s) == ("Autre", s)
  {
    AutreChoseNoTypeFirst(s);
    AutreChoseNoDashRule(s);
    AutreChoseSpaceRule(s);
  }

  lemma AutreChoseTypeText(s: string)
    requires AutreChose(s)
    ensures Upper("Autre") == "AUTRE"
  {
  }

  lemma AutreChoseSubjectText(s: string)
    requires AutreChose(s)
    ensures s == "Autre chose"
  {
  }

  lemma AutreChoseSubjectTrimmed(s: string)
    requires AutreChose(s)
    ensures Trim(RustSpace, s) == s
  {
    TrimTrimmed(RustSpace, s);
  }

  /** The summary normalises to type `AUTRE` and subject `Autre chose`. */
  lemma AutreChoseKind(s: string)
    requires AutreChose(s)
    ensures TypeAndSubject(s) == ("AUTRE", "Autre chose")
  {
    AutreChoseClassify(s);
    TypeAndSubjectOf(s, "Autre", s);
    AutreChoseTypeText(s);
    AutreChoseSubjectTrimmed(s);
    AutreChoseSubjectText(s);
  }

  /** The summary `PPAR TD`, character by character. */
  predicate PparTd(s: string) {
    && |s| == 7
    && s[0] == 'P' && s[1] == 'P' && s[2] == 'A' && s[3] == 'R' && s[4] == ' ' && s[5] == 'T' && s[6] == 'D'
  }

  /** The first pattern does not match: the text does not open with a type. */
  lemma PparTdNoTypeFirst(s: string)
    requires PparTd(s)
    ensures TypeThenSubject(Tokens, s).None?
  {
    TypeAtOpening(s, 0);
  }

  /** The second pattern does not match: the text has no dash. */
  lemma PparTdNoDashRule(s: string)
    requires PparTd(s)
    ensures SubjectThen(Tokens, DashTail, s).None?
  {
    assert CharFree(s, 7, '-');
    assert CharFree(s, 6, '-');
    assert CharFree(s, 5, '-');
    assert CharFree(s, 4, '-');
    assert CharFree(s, 3, '-');
    assert CharFree(s, 2, '-');
    assert CharFree(s, 1, '-');
    assert CharFree(s, 0, '-');
    NoDashNoDashRule(Tokens, s);
  }

  lemma PparTdSpaceFrom1(s: string)
    requires PparTd(s)
    ensures LazyFrom(Tokens, SpaceTail, s, 1) == LazyFrom(Tokens, SpaceTail, s, 2)
  {
    SpaceTailNone(Tokens, s, 1);
    LazyStep(Tokens, SpaceTail, s, 1);
  }

  lemma PparTdSpaceFrom2(s: string)
    requires PparTd(s)
    ensures LazyFrom(Tokens, SpaceTail, s, 2) == LazyFrom(Tokens, SpaceTail, s, 3)
  {
    SpaceTailNone(Tokens, s, 2);
    LazyStep(Tokens, SpaceTail, s, 2);
  }

  lemma PparTdSpaceFrom3(s: string)
    requires PparTd(s)
    ensures LazyFrom(Tokens, SpaceTail, s, 3) == LazyFrom(Tokens, SpaceTail, s, 4)
  {
    SpaceTailNone(Tokens, s, 3);
    LazyStep(Tokens, SpaceTail, s, 3);
  }

  lemma PparTdTypeAt5(s: string)
    requires PparTd(s)
    ensures TypeAt(Tokens, s, 5) == Some(2)
  {
    assert AltMatch(Tokens, s, 5, 1);
    TypeAtToken(s, 5, 1);
  }

  lemma PparTdSpaceFrom4(s: string)
    requires PparTd(s)
    ensures LazyFrom(Tokens, SpaceTail, s, 4) == Some((s[5..7], s[..4]))
  {
    assert Run(s, 5, false) == 0;
    assert Run(s, 4, false) == 1;
    PparTdTypeAt5(s);
    SpaceTailType(Tokens, s, 4, 5, 2);
    LazyHit(Tokens, SpaceTail, s, 4, 5, 2);
  }

  /** The third pattern matches: the subject is the text before the first white space followed by a type. */
  lemma PparTdSpaceRule(s: string)
    requires PparTd(s)
    ensures SubjectThen(Tokens, SpaceTail, s) == Some((s[5..7], s[..4]))
  {
    PparTdSpaceFrom1(s);
    PparTdSpaceFrom2(s);
    PparTdSpaceFrom3(s);
    PparTdSpaceFrom4(s);
  }

  lemma PparTdClassify(s: string)
    requires PparTd(s)
    ensures Classify(Tokens, s) == (s[5..7], s[..4])
  {
    PparTdNoTypeFirst(s);
    PparTdNoDashRule(s);
    PparTdSpaceRule(s);
  }

  lemma PparTdTypeText(s: string)
    requires PparTd(s)
    ensures Upper(s[5..7]) == "TD"
  {
  }

  lemma PparTdSubjectText(s: string)
    requires PparTd(s)
    ensures s[..4] == "PPAR"
  {
  }

  lemma PparTdSubjectTrimmed(s: string)
    requires PparTd(s)
    ensures Trim(RustSpace, s[..4]) == s[..4]
  {
    TrimTrimmed(RustSpace, s[..4]);
  }

  /** The summary normalises to type `TD` and subject `PPAR`. */
  lemma PparTdKind(s: string)
    requires PparTd(s)
    ensures TypeAndSubject(s) == ("TD", "PPAR")
  {
    PparTdClassify(s);
    TypeAndSubjectOf(s, s[5..7], s[..4]);
    PparTdTypeText(s);
    PparTdSubjectTrimmed(s);
    PparTdSubjectText(s);
  }

  /** The summary `BDL2 TD - Coworking space - PNRB`, character by character. */
  predicate Bdl2Coworking(s: string) {
    && |s| == 32
    && s[0] == 'B' && s[1] == 'D' && s[2] == 'L' && s[3] == '2' && s[4] == ' ' && s[5] == 'T' && s[6] == 'D' && s[7] == ' '
    && s[8] == '-' && s[9] == ' ' && s[10] == 'C' && s[11] == 'o' && s[12] == 'w' && s[13] == 'o' && s[14] == 'r' && s[15] == 'k'
    && s[16] == 'i' && s[17] == 'n' && s[18] == 'g' && s[19] == ' ' && s[20] == 's' && s[21] == 'p' && s[22] == 'a' && s[23] == 'c'
    && s[24] == 'e' && s[25] == ' ' && s[26] == '-' && s[27] == ' ' && s[28] == 'P' && s[29] == 'N' && s[30] == 'R' && s[31] == 'B'
  }

  /** The first pattern does not match: the text does not open with a type. */
  lemma Bdl2CoworkingNoTypeFirst(s: string)
    requires Bdl2Coworking(s)
    ensures TypeThenSubject(Tokens, s).None?
  {
    TypeAtOpening(s, 0);
  }

  lemma Bdl2CoworkingDashFrom1(s: string)
    requires Bdl2Coworking(s)
    ensures LazyFrom(Tokens, DashTail, s, 1) == LazyFrom(Tokens, DashTail, s, 2)
  {
    DashTailNone(Tokens, s, 1);
    LazyStep(Tokens, DashTail, s, 1);
  }

  lemma Bdl2CoworkingDashFrom2(s: string)
    requires Bdl2Coworking(s)
    ensures LazyFrom(Tokens, DashTail, s, 2) == LazyFrom(Tokens, DashTail, s, 3)
  {
    DashTailNone(Tokens, s, 2);
    LazyStep(Tokens, DashTail, s, 2);
  }

  lemma Bdl2CoworkingDashFrom3(s: string)
    requires Bdl2Coworking(s)
    ensures LazyFrom(Tokens, DashTail, s, 3) == LazyFrom(Tokens, DashTail, s, 4)
  {
    DashTailNone(Tokens, s, 3);
    LazyStep(Tokens, DashTail, s, 3);
  }

  lemma Bdl2CoworkingDashFrom4(s: string)
    requires Bdl2Coworking(s)
    ensures LazyFrom(Tokens, DashTail, s, 4) == LazyFrom(Tokens, DashTail, s, 5)
  {
    assert Run(s, 5, false) == 0;
    assert Run(s, 4, false) == 1;
    DashTailNoDash(Tokens, s, 4, 5);
    LazyStep(Tokens, DashTail, s, 4);
  }

  lemma Bdl2CoworkingDashFrom5(s: string)
    requires Bdl2Coworking(s)
    ensures LazyFrom(Tokens, DashTail, s, 5) == LazyFrom(Tokens, DashTail, s, 6)
  {
    DashTailNone(Tokens, s, 5);
    LazyStep(Tokens, DashTail, s, 5);
  }

  lemma Bdl2CoworkingDashFrom6(s: string)
    requires Bdl2Coworking(s)
    ensures LazyFrom(Tokens, DashTail, s, 6) == LazyFrom(Tokens, DashTail, s, 7)
  {
    DashTailNone(Tokens, s, 6);
    LazyStep(Tokens, DashTail, s, 6);
  }

  lemma Bdl2CoworkingNoTypeAt10(s: string)
    requires Bdl2Coworking(s)
    ensures TypeAt(Tokens, s, 10).None?
  {
    assert FoldChar(s[10]) == 'c' && FoldChar(s[11]) == 'o';
    TypeAtOpening(s, 10);
  }

  lemma Bdl2CoworkingDashFrom7(s: string)
    requires Bdl2Coworking(s)
    ensures LazyFrom(Tokens, DashTail, s, 7) == LazyFrom(Tokens, DashTail, s, 8)
  {
    assert Run(s, 8, false) == 0;
    assert Run(s, 7, false) == 1;
    assert Run(s, 10, false) == 0;
    assert Run(s, 9, false) == 1;
    Bdl2CoworkingNoTypeAt10(s);
    DashTailNoType(Tokens, s, 7, 8, 10);
    LazyStep(Tokens, DashTail, s, 7);
  }

  lemma Bdl2CoworkingDashFrom8(s: string)
    requires Bdl2Coworking(s)
    ensures LazyFrom(Tokens, DashTail, s, 8) == LazyFrom(Tokens, DashTail, s, 9)
  {
    assert Run(s, 8, false) == 0;
    assert Run(s, 10, false) == 0;
    assert Run(s, 9, false) == 1;
    Bdl2CoworkingNoTypeAt10(s);
    DashTailNoType(Tokens, s, 8, 8, 10);
    LazyStep(Tokens, DashTail, s, 8);
  }

  lemma Bdl2CoworkingDashFrom9(s: string)
    requires Bdl2Coworking(s)
    ensures LazyFrom(Tokens, DashTail, s, 9) == LazyFrom(Tokens, DashTail, s, 10)
  {
    assert Run(s, 10, false) == 0;
    assert Run(s, 9, false) == 1;
    DashTailNoDash(Tokens, s, 9, 10);
    LazyStep(Tokens, DashTail, s, 9);
  }

  lemma Bdl2CoworkingDashFrom10(s: string)
    requires Bdl2Coworking(s)
    ensures LazyFrom(Tokens, DashTail, s, 10) == LazyFrom(Tokens, DashTail, s, 11)
  {
    DashTailNone(Tokens, s, 10);
    LazyStep(Tokens, DashTail, s, 10);
  }

  lemma Bdl2CoworkingDashFrom11(s: string)
    requires Bdl2Coworking(s)
    ensures LazyFrom(Tokens, DashTail, s, 11) == LazyFrom(Tokens, DashTail, s, 12)
  {
    DashTailNone(Tokens, s, 11);
    LazyStep(Tokens, DashTail, s, 11);
  }

  lemma Bdl2CoworkingDashFrom12(s: string)
    requires Bdl2Coworking(s)
    ensures LazyFrom(Tokens, DashTail, s, 12) == LazyFrom(Tokens, DashTail, s, 13)
  {
    DashTailNone(Tokens, s, 12);
    LazyStep(Tokens, DashTail, s, 12);
  }

  lemma Bdl2CoworkingDashFrom13(s: string)
    requires Bdl2Coworking(s)
    ensures LazyFrom(Tokens, DashTail, s, 13) == LazyFrom(Tokens, DashTail, s, 14)
  {
    DashTailNone(Tokens, s, 13);
    LazyStep(Tokens, DashTail, s, 13);
  }

  lemma Bdl2CoworkingDashFrom14(s: string)
    requires Bdl2Coworking(s)
    ensures LazyFrom(Tokens, DashTail, s, 14) == LazyFrom(Tokens, DashTail, s, 15)
  {
    DashTailNone(Tokens, s, 14);
    LazyStep(Tokens, DashTail, s, 14);
  }

  lemma Bdl2CoworkingDashFrom15(s: string)
    requires Bdl2Coworking(s)
    ensures LazyFrom(Tokens, DashTail, s, 15) == LazyFrom(Tokens, DashTail, s, 16)
  {
    DashTailNone(Tokens, s, 15);
    LazyStep(Tokens, DashTail, s, 15);
  }

  lemma Bdl2CoworkingDashFrom16(s: string)
    requires Bdl2Coworking(s)
    ensures LazyFrom(Tokens, DashTail, s, 16) == LazyFrom(Tokens, DashTail, s, 17)
  {
    DashTailNone(Tokens, s, 16);
    LazyStep(Tokens, DashTail, s, 16);
  }

  lemma Bdl2CoworkingDashFrom17(s: string)
    requires Bdl2Coworking(s)
    ensures LazyFrom(Tokens, DashTail, s, 17) == LazyFrom(Tokens, DashTail, s, 18)
  {
    DashTailNone(Tokens, s, 17);
    LazyStep(Tokens, DashTail, s, 17);
  }

  lemma Bdl2CoworkingDashFrom18(s: string)
    requires Bdl2Coworking(s)
    ensures LazyFrom(Tokens, DashTail, s, 18) == LazyFrom(Tokens, DashTail, s, 19)
  {
    DashTailNone(Tokens, s, 18);
    LazyStep(Tokens, DashTail, s, 18);
  }

  lemma Bdl2CoworkingDashFrom19(s: string)
    requires Bdl2Coworking(s)
    ensures LazyFrom(Tokens, DashTail, s, 19) == LazyFrom(Tokens, DashTail, s, 20)
  {
    assert Run(s, 20, false) == 0;
    assert Run(s, 19, false) == 1;
    DashTailNoDash(Tokens, s, 19, 20);
    LazyStep(Tokens, DashTail, s, 19);
  }

  lemma Bdl2CoworkingDashFrom20(s: string)
    requires Bdl2Coworking(s)
    ensures LazyFrom(Tokens, DashTail, s, 20) == LazyFrom(Tokens, DashTail, s, 21)
  {
    DashTailNone(Tokens, s, 20);
    LazyStep(Tokens, DashTail, s, 20);
  }

  lemma Bdl2CoworkingDashFrom21(s: string)
    requires Bdl2Coworking(s)
    ensures LazyFrom(Tokens, DashTail, s, 21) == LazyFrom(Tokens, DashTail, s, 22)
  {
    DashTailNone(Tokens, s, 21);
    LazyStep(Tokens, DashTail, s, 21);
  }

  lemma Bdl2CoworkingDashFrom22(s: string)
    requires Bdl2Coworking(s)
    ensures LazyFrom(Tokens, DashTail, s, 22) == LazyFrom(Tokens, DashTail, s, 23)
  {
    DashTailNone(Tokens, s, 22);
    LazyStep(Tokens, DashTail, s, 22);
  }

  lemma Bdl2CoworkingDashFrom23(s: string)
    requires Bdl2Coworking(s)
    ensures LazyFrom(Tokens, DashTail, s, 23) == LazyFrom(Tokens, DashTail, s, 24)
  {
    DashTailNone(Tokens, s, 23);
    LazyStep(Tokens, DashTail, s, 23);
  }

  lemma Bdl2CoworkingDashFrom24(s: string)
    requires Bdl2Coworking(s)
    ensures LazyFrom(Tokens, DashTail, s, 24) == LazyFrom(Tokens, DashTail, s, 25)
  {
    DashTailNone(Tokens, s, 24);
    LazyStep(Tokens, DashTail, s, 24);
  }

  lemma Bdl2CoworkingNoTypeAt28(s: string)
    requires Bdl2Coworking(s)
    ensures TypeAt(Tokens, s, 28).None?
  {
    assert FoldChar(s[28]) == 'p' && FoldChar(s[29]) == 'n';
    TypeAtOpening(s, 28);
  }

  lemma Bdl2CoworkingDashFrom25(s: string)
    requires Bdl2Coworking(s)
    ensures LazyFrom(Tokens, DashTail, s, 25) == LazyFrom(Tokens, DashTail, s, 26)
  {
    assert Run(s, 26, false) == 0;
    assert Run(s, 25, false) == 1;
    assert Run(s, 28, false) == 0;
    assert Run(s, 27, false) == 1;
    Bdl2CoworkingNoTypeAt28(s);
    DashTailNoType(Tokens, s, 25, 26, 28);
    LazyStep(Tokens, DashTail, s, 25);
  }

  lemma Bdl2CoworkingDashFrom26(s: string)
    requires Bdl2Coworking(s)
    ensures LazyFrom(Tokens, DashTail, s, 26) == LazyFrom(Tokens, DashTail, s, 27)
  {
    assert Run(s, 26, false) == 0;
    assert Run(s, 28, false) == 0;
    assert Run(s, 27, false) == 1;
    Bdl2CoworkingNoTypeAt28(s);
    DashTailNoType(Tokens, s, 26, 26, 28);
    LazyStep(Tokens, DashTail, s, 26);
  }

  lemma Bdl2CoworkingDashFrom27(s: string)
    requires Bdl2Coworking(s)
    ensures LazyFrom(Tokens, DashTail, s, 27) == LazyFrom(Tokens, DashTail, s, 28)
  {
    assert Run(s, 28, false) == 0;
    assert Run(s, 27, false) == 1;
    DashTailNoDash(Tokens, s, 27, 28);
    LazyStep(Tokens, DashTail, s, 27);
  }

  lemma Bdl2CoworkingDashFrom28(s: string)
    requires Bdl2Coworking(s)
    ensures LazyFrom(Tokens, DashTail, s, 28) == LazyFrom(Tokens, DashTail, s, 29)
  {
    DashTailNone(Tokens, s, 28);
    LazyStep(Tokens, DashTail, s, 28);
  }

  lemma Bdl2CoworkingDashFrom29(s: string)
    requires Bdl2Coworking(s)
    ensures LazyFrom(Tokens, DashTail, s, 29) == LazyFrom(Tokens, DashTail, s, 30)
  {
    DashTailNone(Tokens, s, 29);
    LazyStep(Tokens, DashTail, s, 29);
  }

  lemma Bdl2CoworkingDashFrom30(s: string)
    requires Bdl2Coworking(s)
    ensures LazyFrom(Tokens, DashTail, s, 30) == LazyFrom(Tokens, DashTail, s, 31)
  {
    DashTailNone(Tokens, s, 30);
    LazyStep(Tokens, DashTail, s, 30);
  }

  lemma Bdl2CoworkingDashFrom31(s: string)
    requires Bdl2Coworking(s)
    ensures LazyFrom(Tokens, DashTail, s, 31) == LazyFrom(Tokens, DashTail, s, 32)
  {
    DashTailNone(Tokens, s, 31);
    LazyStep(Tokens, DashTail, s, 31);
  }

  lemma Bdl2CoworkingDashFrom32(s: string)
    requires Bdl2Coworking(s)
    ensures LazyFrom(Tokens, DashTail, s, 32).None?
  {
    DashTailNone(Tokens, s, 32);
    LazyLast(Tokens, DashTail, s);
  }

  /** The second pattern does not match: no dash is followed by a type. */
  lemma Bdl2CoworkingNoDashRule(s: string)
    requires Bdl2Coworking(s)
    ensures SubjectThen(Tokens, DashTail, s).None?
  {
    Bdl2CoworkingDashFrom1(s);
    Bdl2CoworkingDashFrom2(s);
    Bdl2CoworkingDashFrom3(s);
    Bdl2CoworkingDashFrom4(s);
    Bdl2CoworkingDashFrom5(s);
    Bdl2CoworkingDashFrom6(s);
    Bdl2CoworkingDashFrom7(s);
    Bdl2CoworkingDashFrom8(s);
    Bdl2CoworkingDashFrom9(s);
    Bdl2CoworkingDashFrom10(s);
    Bdl2CoworkingDashFrom11(s);
    Bdl2CoworkingDashFrom12(s);
    Bdl2CoworkingDashFrom13(s);
    Bdl2CoworkingDashFrom14(s);
    Bdl2CoworkingDashFrom15(s);
    Bdl2CoworkingDashFrom16(s);
    Bdl2CoworkingDashFrom17(s);
    Bdl2CoworkingDashFrom18(s);
    Bdl2CoworkingDashFrom19(s);
    Bdl2CoworkingDashFrom20(s);
    Bdl2CoworkingDashFrom21(s);
    Bdl2CoworkingDashFrom22(s);
    Bdl2CoworkingDashFrom23(s);
    Bdl2CoworkingDashFrom24(s);
    Bdl2CoworkingDashFrom25(s);
    Bdl2CoworkingDashFrom26(s);
    Bdl2CoworkingDashFrom27(s);
    Bdl2CoworkingDashFrom28(s);
    Bdl2CoworkingDashFrom29(s);
    Bdl2CoworkingDashFrom30(s);
    Bdl2CoworkingDashFrom31(s);
    Bdl2CoworkingDashFrom32(s);
  }

  lemma Bdl2CoworkingSpaceFrom1(s: string)
    requires Bdl2Coworking(s)
    ensures LazyFrom(Tokens, SpaceTail, s, 1) == LazyFrom(Tokens, SpaceTail, s, 2)
  {
    SpaceTailNone(Tokens, s, 1);
    LazyStep(Tokens, SpaceTail, s, 1);
  }

  lemma Bdl2CoworkingSpaceFrom2(s: string)
    requires Bdl2Coworking(s)
    ensures LazyFrom(Tokens, SpaceTail, s, 2) == LazyFrom(Tokens, SpaceTail, s, 3)
  {
    SpaceTailNone(Tokens, s, 2);
    LazyStep(Tokens, SpaceTail, s, 2);
  }

  lemma Bdl2CoworkingSpaceFrom3(s: string)
    requires Bdl2Coworking(s)
    ensures LazyFrom(Tokens, SpaceTail, s, 3) == LazyFrom(Tokens, SpaceTail, s, 4)
  {
    SpaceTailNone(Tokens, s, 3);
    LazyStep(Tokens, SpaceTail, s, 3);
  }

  lemma Bdl2CoworkingTypeAt5(s: string)
    requires Bdl2Coworking(s)
    ensures TypeAt(Tokens, s, 5) == Some(2)
  {
    assert AltMatch(Tokens, s, 5, 1);
    TypeAtToken(s, 5, 1);
  }

  lemma Bdl2CoworkingSpaceFrom4(s: string)
    requires Bdl2Coworking(s)
    ensures LazyFrom(Tokens, SpaceTail, s, 4) == Some((s[5..7], s[..4]))
  {
    assert Run(s, 5, false) == 0;
    assert Run(s, 4, false) == 1;
    Bdl2CoworkingTypeAt5(s);
    SpaceTailType(Tokens, s, 4, 5, 2);
    LazyHit(Tokens, SpaceTail, s, 4, 5, 2);
  }

  /** The third pattern matches: the subject is the text before the first white space followed by a type. */
  lemma Bdl2CoworkingSpaceRule(s: string)
    requires Bdl2Coworking(s)
    ensures SubjectThen(Tokens, SpaceTail, s) == Some((s[5..7], s[..4]))
  {
    Bdl2CoworkingSpaceFrom1(s);
    Bdl2CoworkingSpaceFrom2(s);
    Bdl2CoworkingSpaceFrom3(s);
    Bdl2CoworkingSpaceFrom4(s);
  }

  lemma Bdl2CoworkingClassify(s: string)
    requires Bdl2Coworking(s)
    ensures Classify(Tokens, s) == (s[5..7], s[..4])
  {
    Bdl2CoworkingNoTypeFirst(s);
    Bdl2CoworkingNoDashRule(s);
    Bdl2CoworkingSpaceRule(s);
  }

  lemma Bdl2CoworkingTypeText(s: string)
    requires Bdl2Coworking(s)
    ensures Upper(s[5..7]) == "TD"
  {
  }

  lemma Bdl2CoworkingSubjectText(s: string)
    requires Bdl2Coworking(s)
    ensures s[..4] == "BDL2"
  {
  }

  lemma Bdl2CoworkingSubjectTrimmed(s: string)
    requires Bdl2Coworking(s)
    ensures Trim(RustSpace, s[..4]) == s[..4]
  {
    TrimTrimmed(RustSpace, s[..4]);
  }

  /** The summary normalises to type `TD` and subject `BDL2`. */
  lemma Bdl2CoworkingKind(s: string)
    requires Bdl2Coworking(s)
    ensures TypeAndSubject(s) == ("TD", "BDL2")
  {
    Bdl2CoworkingClassify(s);
    TypeAndSubjectOf(s, s[5..7], s[..4]);
    Bdl2CoworkingTypeText(s);
    Bdl2CoworkingSubjectTrimmed(s);
    Bdl2CoworkingSubjectText(s);
  }

  // ---------------------------------------------------------------- date-times

  lemma Jan1At0800Parsed()
    ensures ParseCompact("20250101T080000") == Some(DateTime(Date(2025, 1, 1), 8, 0, 0))
    ensures LocalSeconds(DateTime(Date(2025, 1, 1), 8, 0, 0)) == 1735718400
  {
  }

  /** `20250101T080000` is the instant 1735718400 seconds after the Unix epoch. */
  lemma Jan1At0800()
    ensures ParseIcalDateTime("20250101T080000", 0) == Some(1735718400)
  {
    Jan1At0800Parsed();
    FloatingForm("20250101T080000", 0);
  }

  lemma Jan1At1000Parsed()
    ensures ParseCompact("20250101T100000") == Some(DateTime(Date(2025, 1, 1), 10, 0, 0))
    ensures LocalSeconds(DateTime(Date(2025, 1, 1), 10, 0, 0)) == 1735725600
  {
  }

  /** `20250101T100000` is the instant 1735725600 seconds after the Unix epoch. */
  lemma Jan1At1000()
    ensures ParseIcalDateTime("20250101T100000", 0) == Some(1735725600)
  {
    Jan1At1000Parsed();
    FloatingForm("20250101T100000", 0);
  }

  lemma Jan1At0800Separated()
    ensures Separated("20250101T080000") == "2025-01-01T08:00:00"
  {
    var c := "20250101T080000";
    assert c[..4] == "2025" && c[4..6] == "01" && c[6..8] == "01";
    assert c[9..11] == "08" && c[11..13] == "00" && c[13..] == "00";
  }

  /** The instant of `20250101T080000` shown in UTC. */
  lemma Jan1At0800Iso()
    ensures FormatIso(1735718400, 0) == "2025-01-01T08:00:00"
  {
    Jan1At0800Parsed();
    Jan1At0800Separated();
    IsoOfParsed("20250101T080000");
    ShownInOwnOffset(DateTime(Date(2025, 1, 1), 8, 0, 0), 0);
  }

  lemma Jan1At1000Separated()
    ensures Separated("20250101T100000") == "2025-01-01T10:00:00"
  {
    var c := "20250101T100000";
    assert c[..4] == "2025" && c[4..6] == "01" && c[6..8] == "01";
    assert c[9..11] == "10" && c[11..13] == "00" && c[13..] == "00";
  }

  /** The instant of `20250101T100000` shown in UTC. */
  lemma Jan1At1000Iso()
    ensures FormatIso(1735725600, 0) == "2025-01-01T10:00:00"
  {
    Jan1At1000Parsed();
    Jan1At1000Separated();
    IsoOfParsed("20250101T100000");
    ShownInOwnOffset(DateTime(Date(2025, 1, 1), 10, 0, 0), 0);
  }

  lemma Jan1At1000ZSpelt()
    ensures "20250101T100000" + "Z" == "20250101T100000Z"
  {
  }

  /** `20250101T100000Z` is the instant 1735725600 seconds after the Unix epoch. */
  lemma Jan1At1000Z()
    ensures ParseIcalDateTime("20250101T100000Z", 0) == Some(1735725600)
  {
    Jan1At1000Parsed();
    UtcForm("20250101T100000", 0);
    Jan1At1000ZSpelt();
  }

  lemma Jan1At1130Parsed()
    ensures ParseCompact("20250101T113000") == Some(DateTime(Date(2025, 1, 1), 11, 30, 0))
    ensures LocalSeconds(DateTime(Date(2025, 1, 1), 11, 30, 0)) == 1735731000
  {
  }

  lemma Jan1At1130ZSpelt()
    ensures "20250101T113000" + "Z" == "20250101T113000Z"
  {
  }

  /** `20250101T113000Z` is the instant 1735731000 seconds after the Unix epoch. */
  lemma Jan1At1130Z()
    ensures ParseIcalDateTime("20250101T113000Z", 0) == Some(1735731000)
  {
    Jan1At1130Parsed();
    UtcForm("20250101T113000", 0);
    Jan1At1130ZSpelt();
  }

  lemma Jan1At1130Separated()
    ensures Separated("20250101T113000") == "2025-01-01T11:30:00"
  {
    var c := "20250101T113000";
    assert c[..4] == "2025" && c[4..6] == "01" && c[6..8] == "01";
    assert c[9..11] == "11" && c[11..13] == "30" && c[13..] == "00";
  }

  /** The instant of `20250101T113000Z` shown in UTC. */
  lemma Jan1At1130Iso()
    ensures FormatIso(1735731000, 0) == "2025-01-01T11:30:00"
  {
    Jan1At1130Parsed();
    Jan1At1130Separated();
    IsoOfParsed("20250101T113000");
    ShownInOwnOffset(DateTime(Date(2025, 1, 1), 11, 30, 0), 0);
  }

  lemma Jan1At1400Parsed()
    ensures ParseCompact("20250101T140000") == Some(DateTime(Date(2025, 1, 1), 14, 0, 0))
    ensures LocalSeconds(DateTime(Date(2025, 1, 1), 14, 0, 0)) == 1735740000
  {
  }

  /** `20250101T140000` is the instant 1735740000 seconds after the Unix epoch. */
  lemma Jan1At1400()
    ensures ParseIcalDateTime("20250101T140000", 0) == Some(1735740000)
  {
    Jan1At1400Parsed();
    FloatingForm("20250101T140000", 0);
  }

  lemma Jan1At1700Parsed()
    ensures ParseCompact("20250101T170000") == Some(DateTime(Date(2025, 1, 1), 17, 0, 0))
    ensures LocalSeconds(DateTime(Date(2025, 1, 1), 17, 0, 0)) == 1735750800
  {
  }

  /** `20250101T170000` is the instant 1735750800 seconds after the Unix epoch. */
  lemma Jan1At1700()
    ensures ParseIcalDateTime("20250101T170000", 0) == Some(1735750800)
  {
    Jan1At1700Parsed();
    FloatingForm("20250101T170000", 0);
  }

  lemma Jan1At0900Parsed()
    ensures ParseCompact("20250101T090000") == Some(DateTime(Date(2025, 1, 1), 9, 0, 0))
    ensures LocalSeconds(DateTime(Date(2025, 1, 1), 9, 0, 0)) == 1735722000
  {
  }

  /** `20250101T090000` is the instant 1735722000 seconds after the Unix epoch. */
  lemma Jan1At0900()
    ensures ParseIcalDateTime("20250101T090000", 0) == Some(1735722000)
  {
    Jan1At0900Parsed();
    FloatingForm("20250101T090000", 0);
  }

  lemma Jan1At0945Parsed()
    ensures ParseCompact("20250101T094500") == Some(DateTime(Date(2025, 1, 1), 9, 45, 0))
    ensures LocalSeconds(DateTime(Date(2025, 1, 1), 9, 45, 0)) == 1735724700
  {
  }

  /** `20250101T094500` is the instant 1735724700 seconds after the Unix epoch. */
  lemma Jan1At0945()
    ensures ParseIcalDateTime("20250101T094500", 0) == Some(1735724700)
  {
    Jan1At0945Parsed();
    FloatingForm("20250101T094500", 0);
  }

  lemma Jan1At1200Parsed()
    ensures ParseCompact("20250101T120000") == Some(DateTime(Date(2025, 1, 1), 12, 0, 0))
    ensures LocalSeconds(DateTime(Date(2025, 1, 1), 12, 0, 0)) == 1735732800
  {
  }

  /** `20250101T120000` is the instant 1735732800 seconds after the Unix epoch. */
  lemma Jan1At1200()
    ensures ParseIcalDateTime("20250101T120000", 0) == Some(1735732800)
  {
    Jan1At1200Parsed();
    FloatingForm("20250101T120000", 0);
  }

  // ---------------------------------------------------------------- events

  lemma HoursOf7200(ev: NormalizedEvent)
    requires ev.duration == 7200
    ensures DurationHours(ev) == 2.0
  {
    assert WholeMinutes(7200) == 120;
  }

  lemma CmProresEventKind(raw: RawEvent)
    requires CmProres(raw.summary)
    ensures NormalizeEvent(raw, 0).courseType == "CM" && NormalizeEvent(raw, 0).subject == "PRORES"
  {
    CmProresKind(raw.summary);
    NormalizeEventKind(raw, 0);
  }

  lemma CmProresEventTimes(raw: RawEvent)
    requires raw.start == "20250101T080000" && raw.end == "20250101T100000"
    ensures ParseIcalDateTime(raw.start, 0) == Some(1735718400) && ParseIcalDateTime(raw.end, 0) == Some(1735725600)
  {
    Jan1At0800();
    Jan1At1000();
  }

  lemma CmProresEventDuration(raw: RawEvent)
    requires raw.start == "20250101T080000" && raw.end == "20250101T100000"
    ensures NormalizeEvent(raw, 0).duration == 7200
  {
    CmProresEventTimes(raw);
    NormalizeDuration(raw, 0, 1735718400, 1735725600);
  }

  lemma CmProresEventStartIso(raw: RawEvent)
    requires ParseIcalDateTime(raw.start, 0) == Some(1735718400) && ParseIcalDateTime(raw.end, 0) == Some(1735725600)
    ensures NormalizeEvent(raw, 0).startIso == "2025-01-01T08:00:00"
  {
    Jan1At0800Iso();
    NormalizeStartIso(raw, 0, 1735718400, 1735725600);
  }

  lemma CmProresEventEndIso(raw: RawEvent)
    requires ParseIcalDateTime(raw.start, 0) == Some(1735718400) && ParseIcalDateTime(raw.end, 0) == Some(1735725600)
    ensures NormalizeEvent(raw, 0).endIso == "2025-01-01T10:00:00"
  {
    Jan1At1000Iso();
    NormalizeEndIso(raw, 0, 1735718400, 1735725600);
  }

  /** The event `CM PRORES` from 20250101T080000 to 20250101T100000, as the test expects it. */
  lemma CmProresEvent(raw: RawEvent)
    requires CmProres(raw.summary) && raw.start == "20250101T080000" && raw.end == "20250101T100000"
    ensures var ev := NormalizeEvent(raw, 0);
      && ev.raw == raw
      && ev.courseType == "CM"
      && ev.subject == "PRORES"
      && ev.startIso == "2025-01-01T08:00:00"
      && ev.endIso == "2025-01-01T10:00:00"
      && DurationHours(ev) == 2.0
  {
    NormalizeEventKind(raw, 0);
    CmProresEventKind(raw);
    CmProresEventDuration(raw);
    CmProresEventTimes(raw);
    CmProresEventStartIso(raw);
    CmProresEventEndIso(raw);
    HoursOf7200(NormalizeEvent(raw, 0));
  }

  lemma HoursOf5400(ev: NormalizedEvent)
    requires ev.duration == 5400
    ensures DurationHours(ev) == 1.5
  {
    assert WholeMinutes(5400) == 90;
  }

  lemma IpdTpClaEventKind(raw: RawEvent)
    requires IpdTpCla(raw.summary)
    ensures NormalizeEvent(raw, 0).courseType == "TP" && NormalizeEvent(raw, 0).subject == "IPD"
  {
    IpdTpClaKind(raw.summary);
    NormalizeEventKind(raw, 0);
  }

  lemma IpdTpClaEventTimes(raw: RawEvent)
    requires raw.start == "20250101T100000Z" && raw.end == "20250101T113000Z"
    ensures ParseIcalDateTime(raw.start, 0) == Some(1735725600) && ParseIcalDateTime(raw.end, 0) == Some(1735731000)
  {
    Jan1At1000Z();
    Jan1At1130Z();
  }

  lemma IpdTpClaEventDuration(raw: RawEvent)
    requires raw.start == "20250101T100000Z" && raw.end == "20250101T113000Z"
    ensures NormalizeEvent(raw, 0).duration == 5400
  {
    IpdTpClaEventTimes(raw);
    NormalizeDuration(raw, 0, 1735725600, 1735731000);
  }

  lemma IpdTpClaEventStartIso(raw: RawEvent)
    requires ParseIcalDateTime(raw.start, 0) == Some(1735725600) && ParseIcalDateTime(raw.end, 0) == Some(1735731000)
    ensures NormalizeEvent(raw, 0).startIso == "2025-01-01T10:00:00"
  {
    Jan1At1000Iso();
    NormalizeStartIso(raw, 0, 1735725600, 1735731000);
  }

  lemma IpdTpClaEventEndIso(raw: RawEvent)
    requires ParseIcalDateTime(raw.start, 0) == Some(1735725600) && ParseIcalDateTime(raw.end, 0) == Some(1735731000)
    ensures NormalizeEvent(raw, 0).endIso == "2025-01-01T11:30:00"
  {
    Jan1At1130Iso();
    NormalizeEndIso(raw, 0, 1735725600, 1735731000);
  }

  /** The event `IPD TP Cla 1` from 20250101T100000Z to 20250101T113000Z, as the test expects it. */
  lemma IpdTpClaEvent(raw: RawEvent)
    requires IpdTpCla(raw.summary) && raw.start == "20250101T100000Z" && raw.end == "20250101T113000Z"
    ensures var ev := NormalizeEvent(raw, 0);
      && ev.raw == raw
      && ev.courseType == "TP"
      && ev.subject == "IPD"
      && ev.startIso == "2025-01-01T10:00:00"
      && ev.endIso == "2025-01-01T11:30:00"
      && DurationHours(ev) == 1.5
  {
    NormalizeEventKind(raw, 0);
    IpdTpClaEventKind(raw);
    IpdTpClaEventDuration(raw);
    IpdTpClaEventTimes(raw);
    IpdTpClaEventStartIso(raw);
    IpdTpClaEventEndIso(raw);
    HoursOf5400(NormalizeEvent(raw, 0));
  }

  /**
   * The same event as the code is written: the `Z` times are not read, so it
   * keeps its raw times and lasts zero hours, where the test expects 10:00 to
   * 11:30 and one and a half hours.
   */
  lemma IpdTpClaAsWritten(raw: RawEvent)
    requires IpdTpCla(raw.summary) && raw.start == "20250101T100000Z" && raw.end == "20250101T113000Z"
    ensures var ev := NormalizeEventAsWritten(raw, 0);
      && ev.raw == raw
      && ev.courseType == "TP"
      && ev.subject == "IPD"
      && ev.startIso == "20250101T100000Z"
      && ev.endIso == "20250101T113000Z"
      && DurationHours(ev) == 0.0
  {
    Jan1At1000Parsed();
    Jan1At1000ZSpelt();
    NormalizeZuluAsWritten(raw, 0, "20250101T100000");
    IpdTpClaKind(raw.summary);
    HoursOf0(NormalizeEventAsWritten(raw, 0));
  }

  lemma HoursOf10800(ev: NormalizedEvent)
    requires ev.duration == 10800
    ensures DurationHours(ev) == 3.0
  {
    assert WholeMinutes(10800) == 180;
  }

  lemma TdStandardEventKind(raw: RawEvent)
    requires TdStandard(raw.summary)
    ensures NormalizeEvent(raw, 0).courseType == "TD" && NormalizeEvent(raw, 0).subject == "Standard r\U{00E9}sidentiel"
  {
    TdStandardKind(raw.summary);
    NormalizeEventKind(raw, 0);
  }

  lemma TdStandardEventTimes(raw: RawEvent)
    requires raw.start == "20250101T140000" && raw.end == "20250101T170000"
    ensures ParseIcalDateTime(raw.start, 0) == Some(1735740000) && ParseIcalDateTime(raw.end, 0) == Some(1735750800)
  {
    Jan1At1400();
    Jan1At1700();
  }

  lemma TdStandardEventDuration(raw: RawEvent)
    requires raw.start == "20250101T140000" && raw.end == "20250101T170000"
    ensures NormalizeEvent(raw, 0).duration == 10800
  {
    TdStandardEventTimes(raw);
    NormalizeDuration(raw, 0, 1735740000, 1735750800);
  }

  /** The event `TD Standard r\U{00E9}sidentiel` from 20250101T140000 to 20250101T170000, as the test expects it. */
  lemma TdStandardEvent(raw: RawEvent)
    requires TdStandard(raw.summary) && raw.start == "20250101T140000" && raw.end == "20250101T170000"
    ensures var ev := NormalizeEvent(raw, 0);
      && ev.raw == raw
      && ev.courseType == "TD"
      && ev.subject == "Standard r\U{00E9}sidentiel"
      && DurationHours(ev) == 3.0
  {
    NormalizeEventKind(raw, 0);
    TdStandardEventKind(raw);
    TdStandardEventDuration(raw);
    HoursOf10800(NormalizeEvent(raw, 0));
  }

  lemma HoursOf2700(ev: NormalizedEvent)
    requires ev.duration == 2700
    ensures DurationHours(ev) == 0.75
  {
    assert WholeMinutes(2700) == 45;
  }

  lemma ReunionPedagogiqueEventKind(raw: RawEvent)
    requires ReunionPedagogique(raw.summary)
    ensures NormalizeEvent(raw, 0).courseType == "RÉUNION" && NormalizeEvent(raw, 0).subject == "p\U{00E9}dagogique Responsables formation"
  {
    ReunionPedagogiqueKind(raw.summary);
    NormalizeEventKind(raw, 0);
  }

  lemma ReunionPedagogiqueEventTimes(raw: RawEvent)
    requires raw.start == "20250101T090000" && raw.end == "20250101T094500"
    ensures ParseIcalDateTime(raw.start, 0) == Some(1735722000) && ParseIcalDateTime(raw.end, 0) == Some(1735724700)
  {
    Jan1At0900();
    Jan1At0945();
  }

  lemma ReunionPedagogiqueEventDuration(raw: RawEvent)
    requires raw.start == "20250101T090000" && raw.end == "20250101T094500"
    ensures NormalizeEvent(raw, 0).duration == 2700
  {
    ReunionPedagogiqueEventTimes(raw);
    NormalizeDuration(raw, 0, 1735722000, 1735724700);
  }

  /** The event `R\U{00E9}union p\U{00E9}dagogique Responsables formation` from 20250101T090000 to 20250101T094500, as the test expects it. */
  lemma ReunionPedagogiqueEvent(raw: RawEvent)
    requires ReunionPedagogique(raw.summary) && raw.start == "20250101T090000" && raw.end == "20250101T094500"
    ensures var ev := NormalizeEvent(raw, 0);
      && ev.raw == raw
      && ev.courseType == "RÉUNION"
      && ev.subject == "p\U{00E9}dagogique Responsables formation"
      && DurationHours(ev) == 0.75
  {
    NormalizeEventKind(raw, 0);
    ReunionPedagogiqueEventKind(raw);
    ReunionPedagogiqueEventDuration(raw);
    HoursOf2700(NormalizeEvent(raw, 0));
  }

  lemma HoursOf0(ev: NormalizedEvent)
    requires ev.duration == 0
    ensures DurationHours(ev) == 0.0
  {
    assert WholeMinutes(0) == 0;
  }

  lemma AutreChoseEventKind(raw: RawEvent)
    requires AutreChose(raw.summary)
    ensures NormalizeEvent(raw, 0).courseType == "AUTRE" && NormalizeEvent(raw, 0).subject == "Autre chose"
  {
    AutreChoseKind(raw.summary);
    NormalizeEventKind(raw, 0);
  }

  lemma AutreChoseEventTimes(raw: RawEvent)
    requires raw.start == "20250101T120000" && raw.end == "20250101T120000"
    ensures ParseIcalDateTime(raw.start, 0) == Some(1735732800) && ParseIcalDateTime(raw.end, 0) == Some(1735732800)
  {
    Jan1At1200();
    Jan1At1200();
  }

  lemma AutreChoseEventDuration(raw: RawEvent)
    requires raw.start == "20250101T120000" && raw.end == "20250101T120000"
    ensures NormalizeEvent(raw, 0).duration == 0
  {
    AutreChoseEventTimes(raw);
    NormalizeDuration(raw, 0, 1735732800, 1735732800);
  }

  /** The event `Autre chose` from 20250101T120000 to 20250101T120000, as the test expects it. */
  lemma AutreChoseEvent(raw: RawEvent)
    requires AutreChose(raw.summary) && raw.start == "20250101T120000" && raw.end == "20250101T120000"
    ensures var ev := NormalizeEvent(raw, 0);
      && ev.raw == raw
      && ev.courseType == "AUTRE"
      && ev.subject == "Autre chose"
      && DurationHours(ev) == 0.0
  {
    NormalizeEventKind(raw, 0);
    AutreChoseEventKind(raw);
    AutreChoseEventDuration(raw);
    HoursOf0(NormalizeEvent(raw, 0));
  }

  lemma PparTdEventKind(raw: RawEvent)
    requires PparTd(raw.summary)
    ensures NormalizeEvent(raw, 0).courseType == "TD" && NormalizeEvent(raw, 0).subject == "PPAR"
  {
    PparTdKind(raw.summary);
    NormalizeEventKind(raw, 0);
  }

  lemma Bdl2CoworkingEventKind(raw: RawEvent)
    requires Bdl2Coworking(raw.summary)
    ensures NormalizeEvent(raw, 0).courseType == "TD" && NormalizeEvent(raw, 0).subject == "BDL2"
  {
    Bdl2CoworkingKind(raw.summary);
    NormalizeEventKind(raw, 0);
  }

  // ---------------------------------------------------------------- the tests

  /** `test_heuristics_and_duration`: five events normalised together. */
  lemma HeuristicsAndDuration(events: seq<RawEvent>)
    requires |events| == 5
    requires CmProres(events[0].summary) && events[0].start == "20250101T080000" && events[0].end == "20250101T100000"
    requires IpdTpCla(events[1].summary) && events[1].start == "20250101T100000Z" && events[1].end == "20250101T113000Z"
    requires TdStandard(events[2].summary) && events[2].start == "20250101T140000" && events[2].end == "20250101T170000"
    requires ReunionPedagogique(events[3].summary) && events[3].start == "20250101T090000" && events[3].end == "20250101T094500"
    requires AutreChose(events[4].summary) && events[4].start == "20250101T120000" && events[4].end == "20250101T120000"
    ensures var n := Normalize(events, 0);
      && |n| == 5
      && n[0].courseType == "CM"
      && n[0].subject == "PRORES"
      && DurationHours(n[0]) == 2.0
      && n[0].startIso == "2025-01-01T08:00:00"
      && n[0].endIso == "2025-01-01T10:00:00"
      && n[1].courseType == "TP"
      && n[1].subject == "IPD"
      && DurationHours(n[1]) == 1.5
      && n[1].startIso == "2025-01-01T10:00:00"
      && n[1].endIso == "2025-01-01T11:30:00"
      && n[2].courseType == "TD"
      && n[2].subject == "Standard r\U{00E9}sidentiel"
      && DurationHours(n[2]) == 3.0
      && n[3].courseType == "RÉUNION"
      && n[3].subject == "p\U{00E9}dagogique Responsables formation"
      && DurationHours(n[3]) == 0.75
      && n[4].courseType == "AUTRE"
      && n[4].subject == "Autre chose"
      && DurationHours(n[4]) == 0.0
  {
    CmProresEvent(events[0]);
    IpdTpClaEvent(events[1]);
    TdStandardEvent(events[2]);
    ReunionPedagogiqueEvent(events[3]);
    AutreChoseEvent(events[4]);
  }

  /** `test_additional_patterns`: the type and subject of three more summaries. */
  lemma AdditionalPatterns(events: seq<RawEvent>)
    requires |events| == 3
    requires PparTd(events[0].summary)
    requires Bdl2Coworking(events[1].summary)
    requires ReunionPedagogique(events[2].summary)
    ensures var n := Normalize(events, 0);
      && |n| == 3
      && n[0].courseType == "TD" && n[0].subject == "PPAR"
      && n[1].courseType == "TD" && n[1].subject == "BDL2"
      && n[2].courseType == "RÉUNION" && n[2].subject == "p\U{00E9}dagogique Responsables formation"
  {
    PparTdEventKind(events[0]);
    Bdl2CoworkingEventKind(events[1]);
    ReunionPedagogiqueEventKind(events[2]);
  }}
