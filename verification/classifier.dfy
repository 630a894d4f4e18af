/** `ConversationalBot.analyzeIntent`: an ordered list of regular-expression
    rules over the lower-cased, trimmed message; the first rule that matches
    decides the intent. */
module Classifier {
  import opened Text

  datatype Intent =
    | Informatik | Anmeldung | Klausuren | Aktuelles | Help | University
    | Goodbye | Greeting | Unknown

  /** One alternative of an unanchored keyword regex: a literal word, or `a.*b`. */
  datatype Alt = Word(w: string) | Gap(a: string, b: string)

  predicate AltMatches(s: string, alt: Alt) {
    match alt
    case Word(w) => Contains(s, w)
    case Gap(a, b) => Then(s, a, b)
  }

  /** The alternation `(alt1|alt2|...)`, unanchored. */
  predicate AnyMatches(s: string, alts: seq<Alt>) {
    |alts| > 0 && (AltMatches(s, alts[0]) || AnyMatches(s, alts[1..]))
  }

  /** The alternation scanned from alternative `i` on. */
  predicate AnyFrom(s: string, alts: seq<Alt>, i: nat)
    decreases |alts| - i
  {
    i < |alts| && (AltMatches(s, alts[i]) || AnyFrom(s, alts, i + 1))
  }

  lemma {:induction false} AnyMatchesFrom(s: string, alts: seq<Alt>, i: nat)
    requires i <= |alts|
    ensures AnyMatches(s, alts[i..]) <==> AnyFrom(s, alts, i)
    decreases |alts| - i
  {
    if i < |alts| {
      assert alts[i..][1..] == alts[i + 1..];
      AnyMatchesFrom(s, alts, i + 1);
    }
  }

  /** Character `c` occurs in the alternative (for `a.*b`, in either part). */
  predicate NeedsChar(alt: Alt, c: char) {
    match alt
    case Word(w) => c in w
    case Gap(a, b) => c in a || c in b
  }

  /** An alternative needing a character the message lacks cannot match. */
  lemma MissingCharBlocksAlt(s: string, alt: Alt, c: char)
    requires NeedsChar(alt, c) && c !in s
    ensures !AltMatches(s, alt)
  {
    match alt
    case Word(w) => MissingCharBlocks(s, w, c);
    case Gap(a, b) =>
      if Then(s, a, b) {
        ThenNeedsBoth(s, a, b);
        if c in a { MissingCharBlocks(s, a, c); } else { MissingCharBlocks(s, b, c); }
      }
  }

  /** One step of a negative scan: alternative `i` is ruled out by a missing
      character, and so are all later ones. */
  lemma ScanBlocked(s: string, alts: seq<Alt>, i: nat, c: char)
    requires i < |alts| && NeedsChar(alts[i], c) && c !in s && !AnyFrom(s, alts, i + 1)
    ensures !AnyFrom(s, alts, i)
  {
    MissingCharBlocksAlt(s, alts[i], c);
  }

  const InformatikAlts: seq<Alt> :=
    [Word("informatik"), Gap("computer", "wissenschaft"), Word("cs"), Gap("it", "studium"), Word("programmier")]
  const AnmeldungAlts: seq<Alt> :=
    [Word("anmeld"), Word("bewerbung"), Word("einschreib"), Word("registr"), Word("deadline"), Word("frist")]
  const KlausurenAlts: seq<Alt> :=
    [Word("klausur"), Word("prüfung"), Word("exam"), Word("test"), Gap("termin", "prüf"), Gap("wann", "klausur")]
  const AktuellesAlts: seq<Alt> :=
    [Word("news"), Word("aktuell"), Word("neuigkeit"), Gap("was", "neu"), Gap("was", "los"), Word("info"), Word("nachricht")]
  const HelpAlts: seq<Alt> :=
    [Word("hilfe"), Word("help"), Gap("was", "kann"), Word("befehle"), Word("funktionen")]
  const UniversityAlts: seq<Alt> :=
    [Word("westfälische"), Word("hochschule"), Word("uni"), Word("wh"), Word("studium"), Word("semester")]
  const GoodbyeAlts: seq<Alt> :=
    [Word("tschüss"), Word("bye"), Word("ciao"), Word("danke"), Word("bis")]

  // ---------------------------------------------------------------------
  // ^(hi|hello|hey|moin|hallo|guten\s*(tag|morgen|abend)|servus|grüß)\.?\s*$

  const GreetingWords: seq<string> := ["hi", "hello", "hey", "moin", "hallo", "servus", "grüß"]
  const GutenEndings: seq<string> := ["tag", "morgen", "abend"]

  /** The alternation group of the greeting regex matches all of `h`. */
  predicate GreetingHead(h: string) {
    || h in GreetingWords
    || (|h| >= 5 && h[..5] == "guten" &&
        exists k | 5 <= k <= |h| :: AllSpace(h[5..k]) && h[k..] in GutenEndings)
  }

  /** `\.?\s*$` matches all of `t`. */
  predicate GreetingTail(t: string) {
    AllSpace(t) || (|t| > 0 && t[0] == '.' && AllSpace(t[1..]))
  }

  /** The anchored greeting regex matches `s`. */
  predicate PureGreeting(s: string) {
    exists i | 0 <= i <= |s| :: GreetingHead(s[..i]) && GreetingTail(s[i..])
  }

  /** `['hi', 'hey', 'hallo', 'hello', 'moin', 'start'].includes(s)`. */
  const ExactGreetings: seq<string> := ["hi", "hey", "hallo", "hello", "moin", "start"]

  /** The message as the rules see it: `text.toLowerCase().trim()`. */
  function Normalize(text: string): (r: string)
    ensures IsTrimmed(r)
    ensures Lower(r) == r
  {
    LowerIdempotent(text);
    TrimKeepsLower(Lower(text));
    Trim(Lower(text))
  }

  /** `analyzeIntent(text)`: the rules applied to the normalised message. */
  function AnalyzeIntent(text: string): Intent {
    Classify(Normalize(text))
  }

  /** The tests of `analyzeIntent`, rule by rule in the source's order. */
  function Classify(low: string): Intent {
    if AnyMatches(low, InformatikAlts) then Informatik
    else if AnyMatches(low, AnmeldungAlts) then Anmeldung
    else if AnyMatches(low, KlausurenAlts) then Klausuren
    else if AnyMatches(low, AktuellesAlts) then Aktuelles
    else if AnyMatches(low, HelpAlts) then Help
    else if AnyMatches(low, UniversityAlts) then University
    else if AnyMatches(low, GoodbyeAlts) then Goodbye
    else if PureGreeting(low) then Greeting
    else if low in ExactGreetings then Greeting
    else Unknown
  }

  // ---------------------------------------------------------------------
  // the same classifier as an inspectable rule table

  datatype Pattern = Keywords(alts: seq<Alt>) | PureGreetingPattern | ExactWords(words: seq<string>)

  predicate PatternMatches(s: string, p: Pattern) {
    match p
    case Keywords(alts) => AnyMatches(s, alts)
    case PureGreetingPattern => PureGreeting(s)
    case ExactWords(words) => s in words
  }

  datatype Rule = Rule(pattern: Pattern, intent: Intent)

  /** The rules in priority order. */
  const Rules: seq<Rule> := [
    Rule(Keywords(InformatikAlts), Informatik),
    Rule(Keywords(AnmeldungAlts), Anmeldung),
    Rule(Keywords(KlausurenAlts), Klausuren),
    Rule(Keywords(AktuellesAlts), Aktuelles),
    Rule(Keywords(HelpAlts), Help),
    Rule(Keywords(UniversityAlts), University),
    Rule(Keywords(GoodbyeAlts), Goodbye),
    Rule(PureGreetingPattern, Greeting),
    Rule(ExactWords(ExactGreetings), Greeting)
  ]

  /** Rule `k` matches and no earlier rule does. */
  ghost predicate FirstMatchAt(rules: seq<Rule>, s: string, k: int) {
    && 0 <= k < |rules| && PatternMatches(s, rules[k].pattern)
    && forall j | 0 <= j < k :: !PatternMatches(s, rules[j].pattern)
  }

  /** The intent of the first matching rule, `Unknown` when none matches. */
  function FirstMatch(rules: seq<Rule>, s: string): (r: Intent)
    ensures (forall k | 0 <= k < |rules| :: !PatternMatches(s, rules[k].pattern)) ==> r == Unknown
    ensures forall k | FirstMatchAt(rules, s, k) :: r == rules[k].intent
  {
    if |rules| == 0 then Unknown
    else if PatternMatches(s, rules[0].pattern) then rules[0].intent
    else
      var r := FirstMatch(rules[1..], s);
      assert forall k | FirstMatchAt(rules, s, k) :: k > 0 && FirstMatchAt(rules[1..], s, k - 1);
      r
  }

  /** The chain of tests in `analyzeIntent` is exactly the rule table applied
      to the normalised message: the first matching rule wins. */
  lemma ClassifyIsFirstMatch(s: string)
    ensures Classify(s) == FirstMatch(Rules, s)
  {
    var rs := Rules;
    var t := rs;
    assert FirstMatch(t, s) == if AnyMatches(s, InformatikAlts) then Informatik else FirstMatch(t[1..], s);
    t := t[1..];
    assert FirstMatch(t, s) == if AnyMatches(s, AnmeldungAlts) then Anmeldung else FirstMatch(t[1..], s);
    t := t[1..];
    assert FirstMatch(t, s) == if AnyMatches(s, KlausurenAlts) then Klausuren else FirstMatch(t[1..], s);
    t := t[1..];
    assert FirstMatch(t, s) == if AnyMatches(s, AktuellesAlts) then Aktuelles else FirstMatch(t[1..], s);
    t := t[1..];
    assert FirstMatch(t, s) == if AnyMatches(s, HelpAlts) then Help else FirstMatch(t[1..], s);
    t := t[1..];
    assert FirstMatch(t, s) == if AnyMatches(s, UniversityAlts) then University else FirstMatch(t[1..], s);
    t := t[1..];
    assert FirstMatch(t, s) == if AnyMatches(s, GoodbyeAlts) then Goodbye else FirstMatch(t[1..], s);
    t := t[1..];
    assert FirstMatch(t, s) == if PureGreeting(s) then Greeting else FirstMatch(t[1..], s);
    t := t[1..];
    assert FirstMatch(t, s) == if s in ExactGreetings then Greeting else FirstMatch(t[1..], s);
    t := t[1..];
    assert t == [];
  }

  /** A message is a greeting exactly when it mentions none of the functional
      or farewell keywords and is either a pure greeting or an exact greeting
      word; any keyword outranks a greeting. */
  lemma GreetingIff(text: string)
    ensures var s := Normalize(text);
            AnalyzeIntent(text) == Greeting <==>
              && !AnyMatches(s, InformatikAlts) && !AnyMatches(s, AnmeldungAlts)
              && !AnyMatches(s, KlausurenAlts) && !AnyMatches(s, AktuellesAlts)
              && !AnyMatches(s, HelpAlts) && !AnyMatches(s, UniversityAlts)
              && !AnyMatches(s, GoodbyeAlts)
              && (PureGreeting(s) || s in ExactGreetings)
  {
  }

  /** The anchored greeting pattern on a few inputs: white space may separate
      "guten" from its ending, and one trailing dot is allowed. */
  lemma GreetingPatternExamples()
    ensures PureGreeting("guten morgen") && PureGreeting("moin.")
  {
    var s := "guten morgen";
    assert s[..12] == s && s[12..] == "";
    assert s[..5] == "guten" && s[5..6] == " " && s[6..] == "morgen";
    var m := "moin.";
    assert m[..4] == "moin" && m[4..] == ".";
  }

  /** "start" is no greeting word followed by punctuation; it is one of the
      exact greetings. */
  lemma StartIsExactGreeting()
    ensures !PureGreeting("start") && "start" in ExactGreetings
  {
    var t := "start";
    assert t[..0] == "" && t[..1] == "s" && t[..2] == "st" && t[..3] == "sta" && t[..4] == "star" && t[..5] == t;
  }

  /** A message that is already lower-case and trimmed is its own normal form. */
  lemma NormalizeFixed(text: string)
    requires IsTrimmed(text) && Lower(text) == text
    ensures Normalize(text) == text
  {
    TrimOfTrimmed(text);
  }

  lemma InformatikKlausurLower()
    ensures Lower("Informatik Klausur") == "informatik klausur"
  {
  }

  lemma InformatikKlausurTrimmed()
    ensures IsTrimmed("informatik klausur") && Lower("informatik klausur") == "informatik klausur"
  {
  }

  lemma InformatikKlausurMentionsInformatik()
    ensures AnyMatches("informatik klausur", InformatikAlts)
  {
    var s := "informatik klausur";
    assert OccursAt(s, "informatik", 0);
    ContainsIff(s, "informatik");
    assert AltMatches(s, InformatikAlts[0]);
  }

  lemma InformatikKlausurMentionsExam()
    ensures AnyMatches("informatik klausur", KlausurenAlts)
  {
    var s := "informatik klausur";
    assert OccursAt(s, "klausur", 11);
    ContainsIff(s, "klausur");
    assert AltMatches(s, KlausurenAlts[0]);
  }

  /** "Informatik Klausur" mentions an exam too, but the Informatik rule comes
      first and wins. */
  lemma InformatikOutranksExams()
    ensures AnyMatches(Normalize("Informatik Klausur"), KlausurenAlts)
    ensures AnalyzeIntent("Informatik Klausur") == Informatik
  {
    InformatikKlausurLower();
    InformatikKlausurTrimmed();
    NormalizeFixed("informatik klausur");
    InformatikKlausurMentionsInformatik();
    InformatikKlausurMentionsExam();
  }

  /** Normalising a normalised message changes nothing. */
  lemma NormalizeIdempotent(text: string)
    ensures Normalize(Normalize(text)) == Normalize(text)
  {
    NormalizeFixed(Normalize(text));
  }

  /** Normalising an already lower-cased message gives the same string. */
  lemma NormalizeLower(text: string)
    ensures Normalize(Lower(text)) == Normalize(text)
  {
    LowerIdempotent(text);
  }

  /** Case of the basic letters and umlauts never changes the intent. */
  lemma CaseInsensitive(text: string)
    ensures AnalyzeIntent(Lower(text)) == AnalyzeIntent(text)
  {
    NormalizeLower(text);
  }

  /** White space around the message disappears in normalisation. */
  lemma NormalizePadding(w1: string, text: string, w2: string)
    requires AllSpace(w1) && AllSpace(w2)
    ensures Normalize(w1 + text + w2) == Normalize(text)
  {
    LowerAppend(w1 + text, w2);
    LowerAppend(w1, text);
    LowerKeepsSpace(w1);
    LowerKeepsSpace(w2);
    TrimPadding(Lower(w1), Lower(text), Lower(w2));
  }

  /** White space around the message never changes the intent. */
  lemma PaddingInsensitive(w1: string, text: string, w2: string)
    requires AllSpace(w1) && AllSpace(w2)
    ensures AnalyzeIntent(w1 + text + w2) == AnalyzeIntent(text)
  {
    NormalizePadding(w1, text, w2);
  }
}
