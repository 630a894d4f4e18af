/** `ConversationalBot.generateFriendlyResponse`: the reply text for a
    classified intent and a snapshot of the scraped data. The random choice of
    opener and farewell is an index into the pool, and the `de-DE` rendering of
    the wall clock is the string `now`. */
module Response {
  import opened Wrappers
  import opened Text
  import opened Records
  import opened Seqs
  import opened Classifier
  import opened Aggregator

  const Greetings: seq<string> :=
    ["Moin! 😊", "Hey! 👋", "Hallo! 🙂", "Hi! 😄", "Na? 😎", "Servus! 🤙", "Hallöchen! 👋", "Was geht? 😊"]

  const Goodbyes: seq<string> :=
    ["Bis bald! 👋", "Tschüss! 😊", "Ciao! 🙂", "Bis später! 👋", "Viel Erfolg! 🍀", "Mach's gut! 😄", "See ya! 👋"]

  /** A list answer shows at most this many records. */
  const ShownLimit: nat := 3

  /** The separator between the entries of a list answer. */
  const EntrySeparator: string := "\n\n"

  // ---------------------------------------------------------------------
  // JavaScript rendering helpers

  /** `${x}` of a field that may be absent: an absent one renders as "undefined". */
  function Show(x: Option<string>): string {
    match x
    case Some(v) => v
    case None => "undefined"
  }

  /** `x || fallback`: an absent or empty field gives the fallback. */
  function Or(x: Option<string>, fallback: string): string {
    if x.Some? && x.value != "" then x.value else fallback
  }

  /** `list || []`. */
  function ListOf(x: Option<seq<Record>>): seq<Record> {
    x.GetOr([])
  }

  /** `parts.join(sep)`. */
  function Join(parts: seq<string>, sep: string): string
    decreases |parts|
  {
    if |parts| == 0 then ""
    else if |parts| == 1 then parts[0]
    else parts[0] + sep + Join(parts[1..], sep)
  }

  /** `records.map(render)`. */
  function Map(records: seq<Record>, render: Record -> string): (r: seq<string>)
    ensures |r| == |records| && forall i | 0 <= i < |records| :: r[i] == render(records[i])
  {
    seq(|records|, i requires 0 <= i < |records| => render(records[i]))
  }

  /** The drawn opener (or farewell) and the space after it. */
  function Opener(pick: string): string {
    pick + " "
  }

  /** The line that dates a list answer. */
  function Stamp(now: string): string {
    "⏰ Stand: " + now
  }

  // ---------------------------------------------------------------------
  // entries of the list answers

  function InformatikRegistrationEntry(t: Record): string {
    "📅 " + Show(t.description) + "\n   📍 " + t.date + "\n   🌐 Anmeldung über: " + Or(t.campusPortal, "campus.w-hs.de")
  }

  function RegistrationEntry(t: Record): string {
    "📅 " + Show(t.description) + "\n   Deadline: " + t.date
  }

  function InformatikExamEntry(k: Record): string {
    "📚 " + Show(k.description) + "\n   📅 " + k.date + "\n   📝 Anmeldung: " + Or(k.anmeldung, "Siehe Informatik-Portal")
  }

  function ExamEntry(k: Record): string {
    "📚 " + Show(k.description) + "\n   Termin: " + k.date
  }

  /** A news entry: the title; the body only when it is longer than ten
      characters; the date only when it is set and not the placeholder. */
  function NewsEntry(n: Record): string {
    var body := if n.content.Some? && |n.content.value| > 10 then "   " + n.content.value + "\n" else "";
    var date := if n.date != "" && n.date != "Aktuell" then "   📅 " + n.date else "";
    "📰 " + Show(n.title) + "\n" + body + date
  }

  /** The records a registration or exam answer lists, and whether they are
      rendered in the Informatik form: the first three Informatik records when
      there are any, else the first three of all. */
  function Shown(records: seq<Record>): (r: seq<Record>) {
    var informatik := Filter(records, IsInformatik);
    if |informatik| > 0 then Take(informatik, ShownLimit) else Take(records, ShownLimit)
  }

  function HasInformatik(records: seq<Record>): bool {
    |Filter(records, IsInformatik)| > 0
  }

  // ---------------------------------------------------------------------
  // the fixed texts

  const GreetingText: string :=
    "Schön, dass du da bist! 🎓\n\nIch bin dein WH-Buddy und kann dir bei allem rund um die Westfälische Hochschule helfen! 😊\n\nFrag mich einfach:\n📝 \"Wann ist Anmeldung?\"\n📚 \"Wann sind Klausuren?\"\n💻 \"Informatik Prüfungen\"\n📰 \"Was gibt's Neues?\"\n❓ \"Hilfe\" für mehr Optionen\n\nIch hole alle Infos live von w-hs.de! 🌐✨"
  const NoRegistrationsText: string :=
    "Momentan hab ich keine aktuellen Anmeldetermine gefunden 🤔\n\nSchau am besten direkt auf w-hs.de nach oder frag mich später nochmal! Die Daten werden alle 2 Stunden aktualisiert 🔄"
  const InformatikRegistrationsHead: string := "Hier sind die Informatik-Anmeldetermine:\n\n"
  const InformatikRegistrationsFoot: string :=
    "\n\nDirekter Link: https://www.w-hs.de/informatik/info-center/pruefungen/\n\nVergiss nicht rechtzeitig anzumelden! 💻😉"
  const RegistrationsHead: string := "Hier sind die wichtigsten Anmeldetermine:\n\n"
  const RegistrationsFoot: string := "\n\nVergiss nicht rechtzeitig anzumelden! 😉"
  const NoExamsText: string :=
    "Keine Klausurtermine im System 📚\n\nEntweder sind noch keine veröffentlicht oder es ist gerade klausurfreie Zeit! Check mal w-hs.de für die neuesten Infos 🔍"
  const InformatikExamsHead: string := "Die Informatik-Klausurtermine:\n\n"
  const InformatikExamsFoot: string :=
    "\n\n🔗 Mehr Details: https://www.w-hs.de/informatik/info-center/pruefungen/\n\nSchon fleißig am programmieren? 💻💪 Viel Erfolg!"
  const ExamsHead: string := "Die anstehenden Klausurtermine:\n\n"
  const ExamsFoot: string := "\n\nSchon fleißig am lernen? 💪 Viel Erfolg!"
  const NoNewsText: string := "Grad ist es ruhig an der WH 📰\n\nKeine aktuellen News gefunden. Schau später nochmal vorbei! 😊"
  const NewsHead: string := "Das läuft grad an der WH:\n\n"
  const NewsFoot: string := "\n🔗 Mehr Details auf w-hs.de/pressemedien/ 🌐"
  const HelpText: string :=
    "Kein Problem, ich helfe gerne! 😊\n\nDu kannst mich einfach fragen:\n\n💬 \"Wann ist die nächste Anmeldung?\"\n💬 \"Gibt es neue Klausurtermine?\"\n💬 \"Was gibt's Neues an der WH?\"\n💬 \"Informatik Prüfungen\" für FB Informatik\n💬 \"Hallo\" für Begrüßung\n\nIch verstehe normale Sprache - keine Befehle nötig! 🤖✨"
  const InformatikHead: string := "Alles klar, du fragst nach dem Fachbereich Informatik! 💻\n\n"
  const InformatikLinks: string := "🔗 Informatik Info-Center:\nhttps://www.w-hs.de/informatik/info-center/pruefungen/\n\n"
  const InformatikFoot: string := "\n\nCode gut, lebe besser! 😄💾"
  const UniversityText: string :=
    "Du fragst nach der Westfälischen Hochschule? 🎓\n\nIch bin dein persönlicher WH-Assistent und hole alle Infos live von der offiziellen Website! Frag mich nach:\n\n📝 Anmeldeterminen\n📚 Klausurterminen  \n📰 Aktuellen News\n💻 Informatik-spezifischen Infos\n\nWas möchtest du wissen? 😊"
  const GoodbyeText: string :=
    "War schön, mit dir zu quatschen! 😊\n\nFalls du noch Fragen zur WH hast, schreib mich einfach an. Ich bin immer da! 🤖💙"
  const UnknownText: string :=
    "Hmm, das hab ich nicht ganz verstanden 🤔\n\nFrag mich gerne nach:\n• Anmeldeterminen (\"Wann ist Anmeldung?\")\n• Klausurterminen (\"Wann sind Prüfungen?\")\n• Aktuellen News (\"Was gibt's Neues?\")\n\nOder sag einfach \"Hilfe\" wenn du nicht weiterkommst! 😊"

  // ---------------------------------------------------------------------
  // the answers

  /** A dated list answer: opener, heading, the entries separated by blank
      lines, the timestamp, and the closing text. */
  function ListAnswer(greeting: string, head: string, entries: seq<string>, now: string, foot: string): (r: string)
    ensures Opener(greeting) <= r
  {
    Opener(greeting) + head + Join(entries, EntrySeparator) + "\n\n" + Stamp(now) + foot
  }

  function RegistrationAnswer(greeting: string, termine: seq<Record>, now: string): (r: string)
    ensures Opener(greeting) <= r
  {
    if |termine| == 0 then Opener(greeting) + NoRegistrationsText
    else if HasInformatik(termine) then
      ListAnswer(greeting, InformatikRegistrationsHead, Map(Shown(termine), InformatikRegistrationEntry),
                 now, InformatikRegistrationsFoot)
    else
      ListAnswer(greeting, RegistrationsHead, Map(Shown(termine), RegistrationEntry), now, RegistrationsFoot)
  }

  function ExamAnswer(greeting: string, klausuren: seq<Record>, now: string): (r: string)
    ensures Opener(greeting) <= r
  {
    if |klausuren| == 0 then Opener(greeting) + NoExamsText
    else if HasInformatik(klausuren) then
      ListAnswer(greeting, InformatikExamsHead, Map(Shown(klausuren), InformatikExamEntry), now, InformatikExamsFoot)
    else
      ListAnswer(greeting, ExamsHead, Map(Shown(klausuren), ExamEntry), now, ExamsFoot)
  }

  function NewsAnswer(greeting: string, news: seq<Record>, now: string): (r: string)
    ensures Opener(greeting) <= r
  {
    if |news| == 0 then Opener(greeting) + NoNewsText
    else ListAnswer(greeting, NewsHead, Map(Take(news, ShownLimit), NewsEntry), now, NewsFoot)
  }

  const NextRegistrationLabel: string := "📝 Nächste Anmeldung:\n"
  const NextExamLabel: string := "📚 Nächste Prüfungsperiode:\n"

  /** A labelled record: its description, then its date. */
  function Headline(caption: string, x: Record): string {
    caption + Show(x.description) + "\n📅 " + x.date
  }

  /** The paragraph on the next Informatik registration, when there is one. */
  function NextRegistration(informatik: seq<Record>): string {
    if |informatik| > 0 then
      var t := informatik[0];
      Headline(NextRegistrationLabel, t) + "\n🌐 " + Or(t.campusPortal, "campus.w-hs.de") + "\n\n"
    else ""
  }

  /** The paragraph on the next Informatik exam period, when there is one. */
  function NextExam(informatik: seq<Record>): string {
    if |informatik| > 0 then
      var k := informatik[0];
      Headline(NextExamLabel, k) + "\n\n"
    else ""
  }

  /** The Informatik answer after its opener. */
  function InformatikBody(data: Snapshot, now: string): string {
    InformatikHead
    + NextRegistration(Filter(ListOf(data.anmeldung), IsInformatik))
    + NextExam(Filter(ListOf(data.klausuren), IsInformatik))
    + InformatikLinks + Stamp(now) + InformatikFoot
  }

  function InformatikAnswer(greeting: string, data: Snapshot, now: string): (r: string)
    ensures Opener(greeting) <= r
  {
    Opener(greeting) + InformatikBody(data, now)
  }

  /** `generateFriendlyResponse(intent, data)` with the opener drawn at index
      `g` and the farewell at index `b`. Every reply opens with the drawn
      opener, except the farewell, which opens with the drawn farewell. */
  function GenerateFriendlyResponse(intent: Intent, data: Snapshot, g: nat, b: nat, now: string): (r: string)
    requires g < |Greetings| && b < |Goodbyes|
    ensures intent != Goodbye ==> Opener(Greetings[g]) <= r
    ensures intent == Goodbye ==> Opener(Goodbyes[b]) <= r
  {
    var greeting := Greetings[g];
    match intent
    case Greeting => Opener(greeting) + GreetingText
    case Anmeldung => RegistrationAnswer(greeting, ListOf(data.anmeldung), now)
    case Klausuren => ExamAnswer(greeting, ListOf(data.klausuren), now)
    case Aktuelles => NewsAnswer(greeting, ListOf(data.aktuelles), now)
    case Help => Opener(greeting) + HelpText
    case Informatik => InformatikAnswer(greeting, data, now)
    case University => Opener(greeting) + UniversityText
    case Goodbye => Opener(Goodbyes[b]) + GoodbyeText
    case Unknown => Opener(greeting) + UnknownText
  }

  // ---------------------------------------------------------------------
  // properties

  /** Each part of a join occurs in it. */
  lemma {:induction false} JoinContainsPart(parts: seq<string>, sep: string, i: nat)
    requires i < |parts|
    ensures Contains(Join(parts, sep), parts[i])
    decreases |parts|
  {
    if |parts| == 1 {
      ContainsMiddle("", parts[0], "");
      assert "" + parts[0] + "" == Join(parts, sep);
    } else if i == 0 {
      ContainsMiddle("", parts[0], sep + Join(parts[1..], sep));
      assert "" + parts[0] + (sep + Join(parts[1..], sep)) == Join(parts, sep);
    } else {
      JoinContainsPart(parts[1..], sep, i - 1);
      ContainsInfix(parts[0] + sep, Join(parts[1..], sep), "", parts[i]);
      assert parts[0] + sep + Join(parts[1..], sep) + "" == Join(parts, sep);
    }
  }

  /** A list answer shows every entry it is given and the timestamp. */
  lemma ListAnswerShows(greeting: string, head: string, entries: seq<string>, now: string, foot: string)
    ensures forall i | 0 <= i < |entries| :: Contains(ListAnswer(greeting, head, entries, now, foot), entries[i])
    ensures Contains(ListAnswer(greeting, head, entries, now, foot), Stamp(now))
  {
    var joined := Join(entries, EntrySeparator);
    var r := ListAnswer(greeting, head, entries, now, foot);
    forall i | 0 <= i < |entries| ensures Contains(r, entries[i]) {
      JoinContainsPart(entries, EntrySeparator, i);
      ContainsInfix(Opener(greeting) + head, joined, "\n\n" + Stamp(now) + foot, entries[i]);
      assert Opener(greeting) + head + joined + ("\n\n" + Stamp(now) + foot) == r;
    }
    ContainsMiddle(Opener(greeting) + head + joined + "\n\n", Stamp(now), foot);
  }

  /** The records a registration or exam answer lists: at most three, none
      exactly when the list is empty, each taken from the list, only
      Informatik records when the list has any, and led by the first
      Informatik record, or else by the first record. */
  lemma ShownProperties(records: seq<Record>)
    ensures Shown(records) == if HasInformatik(records) then Take(Filter(records, IsInformatik), ShownLimit)
                              else Take(records, ShownLimit)
    ensures |Shown(records)| <= ShownLimit
    ensures Shown(records) == [] <==> records == []
    ensures forall x | x in Shown(records) :: x in records
    ensures HasInformatik(records) ==> forall x | x in Shown(records) :: IsInformatik(x)
    ensures forall i | 0 <= i < |records| && IsInformatik(records[i]) &&
                       (forall j | 0 <= j < i :: !IsInformatik(records[j])) ::
              Shown(records)[0] == records[i]
    ensures !HasInformatik(records) && records != [] ==> Shown(records)[0] == records[0]
    ensures (forall x | x in records :: IsInformatik(x)) ==> Shown(records) == Take(records, ShownLimit)
  {
    if forall x | x in records :: IsInformatik(x) {
      FilterAll(records, IsInformatik);
    }
    forall i | 0 <= i < |records| && IsInformatik(records[i]) &&
               (forall j | 0 <= j < i :: !IsInformatik(records[j]))
      ensures Shown(records)[0] == records[i]
    {
      FilterHead(records, IsInformatik, i);
    }
    if records != [] && !HasInformatik(records) {
      assert Shown(records) == Take(records, ShownLimit);
    }
  }

  /** The answers that carry the timestamp: the Informatik answer, and a list
      answer whose list is non-empty. */
  predicate Dated(intent: Intent, data: Snapshot) {
    || intent == Informatik
    || (intent == Anmeldung && ListOf(data.anmeldung) != [])
    || (intent == Klausuren && ListOf(data.klausuren) != [])
    || (intent == Aktuelles && ListOf(data.aktuelles) != [])
  }

  /** A dated answer shows the timestamp. */
  lemma DatedAnswerShowsStamp(intent: Intent, data: Snapshot, g: nat, b: nat, now: string)
    requires g < |Greetings| && b < |Goodbyes|
    requires Dated(intent, data)
    ensures Contains(GenerateFriendlyResponse(intent, data, g, b, now), Stamp(now))
  {
    var greeting := Greetings[g];
    match intent
    case Anmeldung =>
      var termine := ListOf(data.anmeldung);
      if HasInformatik(termine) {
        ListAnswerShows(greeting, InformatikRegistrationsHead, Map(Shown(termine), InformatikRegistrationEntry), now, InformatikRegistrationsFoot);
      } else {
        ListAnswerShows(greeting, RegistrationsHead, Map(Shown(termine), RegistrationEntry), now, RegistrationsFoot);
      }
    case Klausuren =>
      var klausuren := ListOf(data.klausuren);
      if HasInformatik(klausuren) {
        ListAnswerShows(greeting, InformatikExamsHead, Map(Shown(klausuren), InformatikExamEntry), now, InformatikExamsFoot);
      } else {
        ListAnswerShows(greeting, ExamsHead, Map(Shown(klausuren), ExamEntry), now, ExamsFoot);
      }
    case Aktuelles =>
      ListAnswerShows(greeting, NewsHead, Map(Take(ListOf(data.aktuelles), ShownLimit), NewsEntry), now, NewsFoot);
    case Informatik =>
      var pre := InformatikHead
                 + NextRegistration(Filter(ListOf(data.anmeldung), IsInformatik))
                 + NextExam(Filter(ListOf(data.klausuren), IsInformatik))
                 + InformatikLinks;
      ContainsMiddle(pre, Stamp(now), InformatikFoot);
      ContainsGrow(InformatikBody(data, now), Stamp(now), Opener(greeting), "");
  }

  /** Every other answer is the same whatever the clock says. */
  lemma UndatedAnswerIgnoresClock(intent: Intent, data: Snapshot, g: nat, b: nat, now1: string, now2: string)
    requires g < |Greetings| && b < |Goodbyes|
    requires !Dated(intent, data)
    ensures GenerateFriendlyResponse(intent, data, g, b, now1) == GenerateFriendlyResponse(intent, data, g, b, now2)
  {
  }

  /** A registration answer lists, in its Informatik form when the list has
      Informatik records and its general form otherwise, each shown record. */
  lemma RegistrationAnswerLists(data: Snapshot, g: nat, b: nat, now: string)
    requires g < |Greetings| && b < |Goodbyes|
    ensures var r := GenerateFriendlyResponse(Anmeldung, data, g, b, now);
            var termine := ListOf(data.anmeldung);
            forall x | x in Shown(termine) ::
              Contains(r, if HasInformatik(termine) then InformatikRegistrationEntry(x) else RegistrationEntry(x))
  {
    var greeting := Greetings[g];
    var termine := ListOf(data.anmeldung);
    var shown := Shown(termine);
    if termine != [] {
      if HasInformatik(termine) {
        var entries := Map(shown, InformatikRegistrationEntry);
        ListAnswerShows(greeting, InformatikRegistrationsHead, entries, now, InformatikRegistrationsFoot);
        forall x | x in shown ensures Contains(RegistrationAnswer(greeting, termine, now), InformatikRegistrationEntry(x)) {
          var i :| 0 <= i < |shown| && shown[i] == x;
          assert entries[i] == InformatikRegistrationEntry(x);
        }
      } else {
        var entries := Map(shown, RegistrationEntry);
        ListAnswerShows(greeting, RegistrationsHead, entries, now, RegistrationsFoot);
        forall x | x in shown ensures Contains(RegistrationAnswer(greeting, termine, now), RegistrationEntry(x)) {
          var i :| 0 <= i < |shown| && shown[i] == x;
          assert entries[i] == RegistrationEntry(x);
        }
      }
    } else {
      ShownProperties(termine);
    }
  }

  /** An exam answer lists, in its Informatik form when the list has Informatik
      records and its general form otherwise, each shown record. */
  lemma ExamAnswerLists(data: Snapshot, g: nat, b: nat, now: string)
    requires g < |Greetings| && b < |Goodbyes|
    ensures var r := GenerateFriendlyResponse(Klausuren, data, g, b, now);
            var klausuren := ListOf(data.klausuren);
            forall x | x in Shown(klausuren) ::
              Contains(r, if HasInformatik(klausuren) then InformatikExamEntry(x) else ExamEntry(x))
  {
    var greeting := Greetings[g];
    var klausuren := ListOf(data.klausuren);
    var shown := Shown(klausuren);
    if klausuren != [] {
      if HasInformatik(klausuren) {
        var entries := Map(shown, InformatikExamEntry);
        ListAnswerShows(greeting, InformatikExamsHead, entries, now, InformatikExamsFoot);
        forall x | x in shown ensures Contains(ExamAnswer(greeting, klausuren, now), InformatikExamEntry(x)) {
          var i :| 0 <= i < |shown| && shown[i] == x;
          assert entries[i] == InformatikExamEntry(x);
        }
      } else {
        var entries := Map(shown, ExamEntry);
        ListAnswerShows(greeting, ExamsHead, entries, now, ExamsFoot);
        forall x | x in shown ensures Contains(ExamAnswer(greeting, klausuren, now), ExamEntry(x)) {
          var i :| 0 <= i < |shown| && shown[i] == x;
          assert entries[i] == ExamEntry(x);
        }
      }
    } else {
      ShownProperties(klausuren);
    }
  }

  /** A news answer lists each of the first three news records. */
  lemma NewsAnswerLists(data: Snapshot, g: nat, b: nat, now: string)
    requires g < |Greetings| && b < |Goodbyes|
    ensures var r := GenerateFriendlyResponse(Aktuelles, data, g, b, now);
            forall i | 0 <= i < |ListOf(data.aktuelles)| && i < ShownLimit ::
              Contains(r, NewsEntry(ListOf(data.aktuelles)[i]))
  {
    var news := ListOf(data.aktuelles);
    var entries := Map(Take(news, ShownLimit), NewsEntry);
    ListAnswerShows(Greetings[g], NewsHead, entries, now, NewsFoot);
    forall i | 0 <= i < |news| && i < ShownLimit
      ensures Contains(GenerateFriendlyResponse(Aktuelles, data, g, b, now), NewsEntry(news[i]))
    {
      assert entries[i] == NewsEntry(news[i]);
    }
  }

  /** A news entry shows a body longer than ten characters, and a real date;
      a record with neither shows its title alone. */
  lemma NewsEntryParts(n: Record)
    ensures "📰 " + Show(n.title) + "\n" <= NewsEntry(n)
    ensures n.content.Some? && |n.content.value| > 10 ==> Contains(NewsEntry(n), n.content.value)
    ensures n.date != "" && n.date != "Aktuell" ==> Contains(NewsEntry(n), n.date)
    ensures (n.content.None? || |n.content.value| <= 10) && (n.date == "" || n.date == "Aktuell") ==>
              NewsEntry(n) == "📰 " + Show(n.title) + "\n"
    ensures (n.content.None? || |n.content.value| <= 10) && n.date != "" && n.date != "Aktuell" ==>
              NewsEntry(n) == "📰 " + Show(n.title) + "\n" + "   📅 " + n.date
    ensures n.content.Some? && |n.content.value| > 10 && (n.date == "" || n.date == "Aktuell") ==>
              NewsEntry(n) == "📰 " + Show(n.title) + "\n" + "   " + n.content.value + "\n"
  {
    var head := "📰 " + Show(n.title) + "\n";
    var body := if n.content.Some? && |n.content.value| > 10 then "   " + n.content.value + "\n" else "";
    var date := if n.date != "" && n.date != "Aktuell" then "   📅 " + n.date else "";
    assert NewsEntry(n) == head + body + date;
    if n.content.Some? && |n.content.value| > 10 {
      ContainsMiddle(head + "   ", n.content.value, "\n" + date);
      assert head + "   " + n.content.value + ("\n" + date) == NewsEntry(n);
    }
    if n.date != "" && n.date != "Aktuell" {
      ContainsMiddle(head + body + "   📅 ", n.date, "");
      assert head + body + "   📅 " + n.date + "" == NewsEntry(n);
    }
  }

  /** The Informatik answer names the first Informatik registration of the
      snapshot, with its date. */
  lemma InformatikAnswerNamesRegistration(data: Snapshot, g: nat, b: nat, now: string, i: nat)
    requires g < |Greetings| && b < |Goodbyes|
    requires var termine := ListOf(data.anmeldung);
             i < |termine| && IsInformatik(termine[i]) && forall j | 0 <= j < i :: !IsInformatik(termine[j])
    ensures Contains(GenerateFriendlyResponse(Informatik, data, g, b, now), Headline(NextRegistrationLabel, ListOf(data.anmeldung)[i]))
  {
    var greeting := Greetings[g];
    var regs := Filter(ListOf(data.anmeldung), IsInformatik);
    FilterHead(ListOf(data.anmeldung), IsInformatik, i);
    assert GenerateFriendlyResponse(Informatik, data, g, b, now) == InformatikAnswer(greeting, data, now);
    var a := InformatikHead;
    var reg := NextRegistration(regs);
    var exam := NextExam(Filter(ListOf(data.klausuren), IsInformatik));
    var w := Headline(NextRegistrationLabel, regs[0]);
    NextRegistrationNames(regs);
    ContainsGrow(reg, w, a, "");
    ContainsGrow(a + reg, w, "", exam);
    ContainsGrow(a + reg + exam, w, "", InformatikLinks);
    ContainsGrow(a + reg + exam + InformatikLinks, w, "", Stamp(now));
    ContainsGrow(a + reg + exam + InformatikLinks + Stamp(now), w, "", InformatikFoot);
    ContainsGrow(InformatikBody(data, now), w, Opener(greeting), "");
  }

  /** The Informatik answer names the first Informatik exam of the snapshot,
      with its date. */
  lemma InformatikAnswerNamesExam(data: Snapshot, g: nat, b: nat, now: string, k: nat)
    requires g < |Greetings| && b < |Goodbyes|
    requires var klausuren := ListOf(data.klausuren);
             k < |klausuren| && IsInformatik(klausuren[k]) && forall j | 0 <= j < k :: !IsInformatik(klausuren[j])
    ensures Contains(GenerateFriendlyResponse(Informatik, data, g, b, now), Headline(NextExamLabel, ListOf(data.klausuren)[k]))
  {
    var greeting := Greetings[g];
    var exams := Filter(ListOf(data.klausuren), IsInformatik);
    FilterHead(ListOf(data.klausuren), IsInformatik, k);
    assert GenerateFriendlyResponse(Informatik, data, g, b, now) == InformatikAnswer(greeting, data, now);
    var a := InformatikHead;
    var reg := NextRegistration(Filter(ListOf(data.anmeldung), IsInformatik));
    var exam := NextExam(exams);
    var w := Headline(NextExamLabel, exams[0]);
    NextExamNames(exams);
    ContainsGrow(exam, w, a + reg, "");
    ContainsGrow(a + reg + exam, w, "", InformatikLinks);
    ContainsGrow(a + reg + exam + InformatikLinks, w, "", Stamp(now));
    ContainsGrow(a + reg + exam + InformatikLinks + Stamp(now), w, "", InformatikFoot);
    ContainsGrow(InformatikBody(data, now), w, Opener(greeting), "");
  }

  /** The Informatik body without its registration paragraph is the body of a
      snapshot without registrations; likewise for the exam paragraph. */
  lemma InformatikBodyWithout(data: Snapshot, now: string)
    ensures !HasInformatik(ListOf(data.anmeldung)) ==>
              InformatikBody(data, now) == InformatikBody(data.(anmeldung := None), now)
    ensures !HasInformatik(ListOf(data.klausuren)) ==>
              InformatikBody(data, now) == InformatikBody(data.(klausuren := None), now)
  {
    var regs := Filter(ListOf(data.anmeldung), IsInformatik);
    var exams := Filter(ListOf(data.klausuren), IsInformatik);
    if !HasInformatik(ListOf(data.anmeldung)) {
      assert NextRegistration(regs) == NextRegistration(Filter(ListOf(data.(anmeldung := None).anmeldung), IsInformatik));
    }
    if !HasInformatik(ListOf(data.klausuren)) {
      assert NextExam(exams) == NextExam(Filter(ListOf(data.(klausuren := None).klausuren), IsInformatik));
    }
  }

  /** Without an Informatik registration the answer has no registration
      paragraph: it reads as if there were no registrations at all. Likewise
      for the exam paragraph. */
  lemma InformatikParagraphsAbsent(data: Snapshot, g: nat, b: nat, now: string)
    requires g < |Greetings| && b < |Goodbyes|
    ensures !HasInformatik(ListOf(data.anmeldung)) ==>
              GenerateFriendlyResponse(Informatik, data, g, b, now)
              == GenerateFriendlyResponse(Informatik, data.(anmeldung := None), g, b, now)
    ensures !HasInformatik(ListOf(data.klausuren)) ==>
              GenerateFriendlyResponse(Informatik, data, g, b, now)
              == GenerateFriendlyResponse(Informatik, data.(klausuren := None), g, b, now)
  {
    InformatikBodyWithout(data, now);
    assert GenerateFriendlyResponse(Informatik, data, g, b, now) == InformatikAnswer(Greetings[g], data, now);
    assert GenerateFriendlyResponse(Informatik, data.(anmeldung := None), g, b, now)
           == InformatikAnswer(Greetings[g], data.(anmeldung := None), now);
    assert GenerateFriendlyResponse(Informatik, data.(klausuren := None), g, b, now)
           == InformatikAnswer(Greetings[g], data.(klausuren := None), now);
  }

  /** Before the first aggregation the bot holds the empty snapshot: each list
      answer is its "nothing found" text. */
  lemma EmptySnapshotAnswers(g: nat, b: nat, now: string)
    requires g < |Greetings| && b < |Goodbyes|
    ensures GenerateFriendlyResponse(Anmeldung, EmptySnapshot, g, b, now) == Opener(Greetings[g]) + NoRegistrationsText
    ensures GenerateFriendlyResponse(Klausuren, EmptySnapshot, g, b, now) == Opener(Greetings[g]) + NoExamsText
    ensures GenerateFriendlyResponse(Aktuelles, EmptySnapshot, g, b, now) == Opener(Greetings[g]) + NoNewsText
  {
  }

  /** On the empty snapshot the Informatik answer has neither paragraph. */
  lemma EmptySnapshotInformatik(now: string)
    ensures InformatikBody(EmptySnapshot, now) == InformatikHead + InformatikLinks + Stamp(now) + InformatikFoot
  {
    var tail := InformatikLinks + Stamp(now) + InformatikFoot;
    assert InformatikBody(EmptySnapshot, now) == InformatikHead + "" + "" + tail;
  }

  lemma NextRegistrationNames(regs: seq<Record>)
    requires regs != []
    ensures Contains(NextRegistration(regs), Headline(NextRegistrationLabel, regs[0]))
  {
    var w := Headline(NextRegistrationLabel, regs[0]);
    var rest := "\n🌐 " + Or(regs[0].campusPortal, "campus.w-hs.de") + "\n\n";
    ContainsMiddle("", w, rest);
    assert "" + w + rest == NextRegistration(regs);
  }

  lemma NextExamNames(exams: seq<Record>)
    requires exams != []
    ensures Contains(NextExam(exams), Headline(NextExamLabel, exams[0]))
  {
    var w := Headline(NextExamLabel, exams[0]);
    ContainsMiddle("", w, "\n\n");
    assert "" + w + "\n\n" == NextExam(exams);
  }

  /** Since aggregation never leaves a topic empty, every list answer built
      from an aggregated snapshot is a dated list, never the "nothing found"
      text. */
  lemma AggregatedListAnswersAreDated<E>(
    anmeldung: Result<seq<Record>, E>,
    klausuren: Result<seq<Record>, E>,
    aktuelles: Result<seq<Record>, E>,
    lastUpdated: string, intent: Intent, g: nat, b: nat, now: string)
    requires anmeldung.Ok? ==> anmeldung.value != []
    requires klausuren.Ok? ==> klausuren.value != []
    requires aktuelles.Ok? ==> aktuelles.value != []
    requires intent == Anmeldung || intent == Klausuren || intent == Aktuelles
    requires g < |Greetings| && b < |Goodbyes|
    ensures var data := GetAllUniversityData(anmeldung, klausuren, aktuelles, lastUpdated);
            Contains(GenerateFriendlyResponse(intent, data, g, b, now), Stamp(now))
  {
    var data := GetAllUniversityData(anmeldung, klausuren, aktuelles, lastUpdated);
    AggregateIsPopulated(anmeldung, klausuren, aktuelles, lastUpdated);
    DatedAnswerShowsStamp(intent, data, g, b, now);
  }
}
