/** The classifier on three concrete messages. A keyword alternative is ruled
    out by naming one of its characters that the message lacks. */
module IntentExamples {
  import opened Text
  import opened Classifier

  /** `cs[k]` is a character of alternative `k` missing from `s`, for every `k` from `i` on. */
  predicate CharsRuleOut(s: string, alts: seq<Alt>, cs: string, i: nat)
    decreases |alts| - i
  {
    i >= |alts| || (i < |cs| && NeedsChar(alts[i], cs[i]) && cs[i] !in s && CharsRuleOut(s, alts, cs, i + 1))
  }

  /** Alternatives ruled out by missing characters do not match. */
  lemma {:induction false} RuledOut(s: string, alts: seq<Alt>, cs: string)
    requires CharsRuleOut(s, alts, cs, 0)
    ensures !AnyMatches(s, alts)
  {
    RuledOutFrom(s, alts, cs, 0);
    AnyMatchesFrom(s, alts, 0);
  }

  lemma {:induction false} RuledOutFrom(s: string, alts: seq<Alt>, cs: string, i: nat)
    requires CharsRuleOut(s, alts, cs, i)
    ensures !AnyFrom(s, alts, i)
    decreases |alts| - i
  {
    if i < |alts| {
      RuledOutFrom(s, alts, cs, i + 1);
      ScanBlocked(s, alts, i, cs[i]);
    }
  }

  // ---------------------------------------------------------------------
  // the two greeting words

  const Hallo: string := "hallo"
  const Start: string := "start"

  // "hallo" has only the letters h, a, l, o and "start" only s, t, a, r;
  // every keyword alternative needs some other letter.

  lemma HalloLacksInformatik()
    ensures !AnyMatches(Hallo, InformatikAlts)
  {
    RuledOut(Hallo, InformatikAlts, "iccip");
  }

  lemma StartLacksInformatik()
    ensures !AnyMatches(Start, InformatikAlts)
  {
    RuledOut(Start, InformatikAlts, "iccip");
  }

  lemma HalloLacksAnmeldung()
    ensures !AnyMatches(Hallo, AnmeldungAlts)
  {
    RuledOut(Hallo, AnmeldungAlts, "nberdf");
  }

  lemma StartLacksAnmeldung()
    ensures !AnyMatches(Start, AnmeldungAlts)
  {
    RuledOut(Start, AnmeldungAlts, "nbeedf");
  }

  lemma HalloLacksKlausuren()
    ensures !AnyMatches(Hallo, KlausurenAlts)
  {
    RuledOut(Hallo, KlausurenAlts, "kpettw");
  }

  lemma StartLacksKlausuren()
    ensures !AnyMatches(Start, KlausurenAlts)
  {
    RuledOut(Start, KlausurenAlts, "kpeeew");
  }

  lemma HalloLacksAktuelles()
    ensures !AnyMatches(Hallo, AktuellesAlts)
  {
    RuledOut(Hallo, AktuellesAlts, "nknwwin");
  }

  lemma StartLacksAktuelles()
    ensures !AnyMatches(Start, AktuellesAlts)
  {
    RuledOut(Start, AktuellesAlts, "nknwwin");
  }

  lemma HalloLacksHelp()
    ensures !AnyMatches(Hallo, HelpAlts)
  {
    RuledOut(Hallo, HelpAlts, "iewbf");
  }

  lemma StartLacksHelp()
    ensures !AnyMatches(Start, HelpAlts)
  {
    RuledOut(Start, HelpAlts, "hhwbf");
  }

  lemma HalloLacksUniversity()
    ensures !AnyMatches(Hallo, UniversityAlts)
  {
    RuledOut(Hallo, UniversityAlts, "wcuwss");
  }

  lemma StartLacksUniversity()
    ensures !AnyMatches(Start, UniversityAlts)
  {
    RuledOut(Start, UniversityAlts, "whuwue");
  }

  lemma HalloLacksGoodbye()
    ensures !AnyMatches(Hallo, GoodbyeAlts)
  {
    RuledOut(Hallo, GoodbyeAlts, "tbcdb");
  }

  lemma StartLacksGoodbye()
    ensures !AnyMatches(Start, GoodbyeAlts)
  {
    RuledOut(Start, GoodbyeAlts, "cbcdb");
  }

  lemma GreetingsLackKeywords()
    ensures !AnyMatches(Hallo, InformatikAlts) && !AnyMatches(Hallo, AnmeldungAlts)
    ensures !AnyMatches(Hallo, KlausurenAlts) && !AnyMatches(Hallo, AktuellesAlts)
    ensures !AnyMatches(Hallo, HelpAlts) && !AnyMatches(Hallo, UniversityAlts)
    ensures !AnyMatches(Hallo, GoodbyeAlts)
    ensures !AnyMatches(Start, InformatikAlts) && !AnyMatches(Start, AnmeldungAlts)
    ensures !AnyMatches(Start, KlausurenAlts) && !AnyMatches(Start, AktuellesAlts)
    ensures !AnyMatches(Start, HelpAlts) && !AnyMatches(Start, UniversityAlts)
    ensures !AnyMatches(Start, GoodbyeAlts)
  {
    HalloLacksInformatik();
    StartLacksInformatik();
    HalloLacksAnmeldung();
    StartLacksAnmeldung();
    HalloLacksKlausuren();
    StartLacksKlausuren();
    HalloLacksAktuelles();
    StartLacksAktuelles();
    HalloLacksHelp();
    StartLacksHelp();
    HalloLacksUniversity();
    StartLacksUniversity();
    HalloLacksGoodbye();
    StartLacksGoodbye();
  }

  lemma HalloNormal()
    ensures IsTrimmed(Hallo) && Lower(Hallo) == Hallo
  {
  }

  lemma HalloPure()
    ensures PureGreeting(Hallo)
  {
    assert Hallo[..5] == Hallo && Hallo[5..] == "";
    assert GreetingHead(Hallo[..5]) && GreetingTail(Hallo[5..]);
  }

  /** "hallo" is a pure greeting, and classified as one. */
  lemma HalloIsGreeting()
    ensures AnalyzeIntent(Hallo) == Greeting
  {
    HalloNormal();
    NormalizeFixed(Hallo);
    GreetingsLackKeywords();
    HalloPure();
    GreetingIff(Hallo);
  }

  /** "start" is no pure greeting but an exact greeting word, and classified
      as a greeting. */
  lemma StartIsGreeting()
    ensures AnalyzeIntent(Start) == Greeting
  {
    assert IsTrimmed(Start) && Lower(Start) == Start;
    NormalizeFixed(Start);
    GreetingsLackKeywords();
    StartIsExactGreeting();
  }

  // ---------------------------------------------------------------------
  // a greeting followed by an exam question

  const Question: string := "hi, wann ist die nächste klausur?"

  lemma QuestionNormal()
    ensures IsTrimmed(Question) && Lower(Question) == Question
  {
  }

  // The only "c" of the question is followed by "h", and its only "d" by "i".

  lemma QuestionSplitC()
    ensures Question == "hi, wann ist die nä" + ['c', 'h'] + "ste klausur?"
  {
  }

  lemma QuestionLacksCs()
    ensures !Contains(Question, "cs")
  {
    QuestionSplitC();
    PairBlocks("hi, wann ist die nä", 'c', 'h', "ste klausur?", "cs");
  }

  lemma QuestionSplitD()
    ensures Question == "hi, wann ist " + ['d', 'i'] + "e nächste klausur?"
  {
  }

  lemma QuestionLacksPairs()
    ensures !Contains(Question, "cs") && !Contains(Question, "deadline")
  {
    QuestionLacksCs();
    QuestionSplitD();
    PairBlocks("hi, wann ist ", 'd', 'i', "e nächste klausur?", "deadline");
  }

  /** A message without the letters f, o, m, p and without "cs" mentions no
      Informatik keyword. */
  lemma NoInformatikKeyword(s: string)
    requires 'f' !in s && 'o' !in s && 'm' !in s && 'p' !in s && !Contains(s, "cs")
    ensures !AnyMatches(s, InformatikAlts)
  {
    var alts := InformatikAlts;
    ScanBlocked(s, alts, 4, 'p');
    ScanBlocked(s, alts, 3, 'm');
    assert !AnyFrom(s, alts, 2);
    ScanBlocked(s, alts, 1, 'o');
    ScanBlocked(s, alts, 0, 'f');
    AnyMatchesFrom(s, alts, 0);
  }

  /** A message without the letters m, b, g, f and without "deadline"
      mentions no registration keyword. */
  lemma NoAnmeldungKeyword(s: string)
    requires 'm' !in s && 'b' !in s && 'g' !in s && 'f' !in s && !Contains(s, "deadline")
    ensures !AnyMatches(s, AnmeldungAlts)
  {
    var alts := AnmeldungAlts;
    ScanBlocked(s, alts, 5, 'f');
    assert !AnyFrom(s, alts, 4);
    ScanBlocked(s, alts, 3, 'g');
    ScanBlocked(s, alts, 2, 'b');
    ScanBlocked(s, alts, 1, 'b');
    ScanBlocked(s, alts, 0, 'm');
    AnyMatchesFrom(s, alts, 0);
  }

  lemma QuestionLacksLetters()
    ensures 'f' !in Question && 'o' !in Question && 'm' !in Question && 'p' !in Question
    ensures 'b' !in Question && 'g' !in Question
  {
    QuestionLacksF();
    QuestionLacksO();
    QuestionLacksM();
    QuestionLacksP();
    QuestionLacksB();
    QuestionLacksG();
  }

  lemma QuestionLacksF() ensures 'f' !in Question { }
  lemma QuestionLacksO() ensures 'o' !in Question { }
  lemma QuestionLacksM() ensures 'm' !in Question { }
  lemma QuestionLacksP() ensures 'p' !in Question { }
  lemma QuestionLacksB() ensures 'b' !in Question { }
  lemma QuestionLacksG() ensures 'g' !in Question { }

  lemma QuestionLacksKeywords()
    ensures !AnyMatches(Question, InformatikAlts) && !AnyMatches(Question, AnmeldungAlts)
  {
    QuestionLacksLetters();
    QuestionLacksPairs();
    NoInformatikKeyword(Question);
    NoAnmeldungKeyword(Question);
  }

  lemma QuestionMentionsExam()
    ensures AnyMatches(Question, KlausurenAlts)
  {
    assert OccursAt(Question, "klausur", 25);
    ContainsIff(Question, "klausur");
    assert AltMatches(Question, KlausurenAlts[0]);
  }

  /** A question that opens with "hi" but asks about exams is classified by
      its keyword: the greeting rules come last. */
  lemma QuestionIsAboutExams()
    ensures AnalyzeIntent(Question) == Klausuren
  {
    QuestionNormal();
    NormalizeFixed(Question);
    QuestionLacksKeywords();
    QuestionMentionsExam();
  }
}
