/** The exam and registration extractors (the producers the cache wraps) and
    their hard-coded defaults. A fetched page arrives as the list of elements
    its selector matches, in document order, or as the fetcher's error; the
    value of a nested cached call arrives as its result. */
module Extractors {
  import opened Wrappers
  import opened Text
  import opened DatePattern
  import opened Records
  import opened Seqs
  import opened Structured
  import opened Fetch

  type Page = Result<seq<Element>, FetchError>

  /** How many records a general scrape keeps. */
  const GeneralLimit: nat := 5

  // ---------------------------------------------------------------------
  // defaults

  function DefaultInformatikPruefungen(): seq<Record> {
    [ Basic("Informatik Prüfungsperiode", "27.01. - 31.01.2025", "Fallback")
        .(description := Some("Prüfungsperiode 1 - Zeitraum 1"),
          anmeldung := Some("30.12.24 - 12.01.25"),
          department := Some(InformatikDepartment)),
      Basic("Informatik Prüfungsperiode", "30.06. - 11.07.2025", "Fallback")
        .(description := Some("Prüfungsperiode 2"),
          anmeldung := Some("09.06. - 22.06.2025"),
          department := Some(InformatikDepartment)) ]
  }

  function DefaultInformatikAnmeldungen(): seq<Record> {
    [ Basic("Informatik Prüfungsanmeldung", "30.12.24 - 12.01.25", "Fallback")
        .(description := Some("Prüfungsperiode 1 - Anmeldung 1"),
          pruefungszeit := Some("27.01. - 31.01.2025"),
          campusPortal := Some("campus.w-hs.de"),
          department := Some(InformatikDepartment)) ]
  }

  function DefaultAnmeldungTermine(): seq<Record> {
    [ Basic("Anmeldung", "15.10.2024", "Fallback")
        .(description := Some("Anmeldung Wintersemester 2024/25")) ]
  }

  function DefaultKlausurTermine(): seq<Record> {
    [ Basic("Klausur", "20.01.2025 - 10.02.2025", "Fallback")
        .(description := Some("Klausurphase Wintersemester"),
          time := Some("siehe Prüfungsplan")) ]
  }

  // ---------------------------------------------------------------------
  // Informatik exams

  /** The Informatik page's filter: the text mentions an exam, or the heading mentions Informatik. */
  predicate AnnouncementMatches(text: string, title: string) {
    Contains(Lower(text), "prüfung") || Contains(Lower(text), "klausur")
    || Contains(Lower(title), "informatik")
  }

  /** An announcement on the Informatik page: kept when it passes the filter,
      and only if its text has a date. */
  function Announcement(e: Element): (r: Option<Record>)
    ensures r.Some? ==> IsInformatik(r.value)
    ensures r.Some? ==> exists p :: IsLeftmostDate(Trim(e.text), p, r.value.date)
    ensures (forall p :: !MatchesAt(Trim(e.text), p)) ==> r.None?
    ensures r.Some? <==> AnnouncementMatches(Trim(e.text), Trim(e.heading)) && FirstDate(Trim(e.text)).Some?
    ensures r.Some? ==> r.value.description == Some(OrElse(Trim(e.heading), Take(Trim(e.text), 80) + "..."))
  {
    var text := Trim(e.text);
    var title := Trim(e.heading);
    var date := FirstDate(text);
    if AnnouncementMatches(text, title) && date.Some? then
      Some(Basic("Informatik Ankündigung", date.value, InformatikSource)
             .(description := Some(OrElse(title, Take(text, 80) + "...")),
               department := Some(InformatikDepartment)))
    else None
  }

  /** The Informatik exam producer: the structured exam records, then the dated
      announcements, but only once the page fetch succeeded; on a fetch error,
      the two-record default. */
  function ScrapeInformatikPruefungen(page: Page): (r: seq<Record>)
    ensures page.Err? ==> r == DefaultInformatikPruefungen()
    ensures page.Ok? ==> r == Expand(Table, Exams) + FilterMap(page.value, Announcement)
    ensures |r| > 0
    ensures forall x | x in r :: IsInformatik(x)
  {
    match page
    case Err(_) => DefaultInformatikPruefungen()
    case Ok(elements) =>
      ShippedTable();
      ExpandInformatik(Table, Exams);
      var found := Expand(Table, Exams) + FilterMap(elements, Announcement);
      if |found| > 0 then found else DefaultInformatikPruefungen()
  }

  /** Announcements keep document order: elements further down the page add
      their records after those of the elements above them. */
  lemma AnnouncementsInOrder(above: seq<Element>, below: seq<Element>)
    ensures ScrapeInformatikPruefungen(Ok(above + below))
            == ScrapeInformatikPruefungen(Ok(above)) + FilterMap(below, Announcement)
  {
    FilterMapAppend(above, below, Announcement);
    AppendAfter(Expand(Table, Exams), FilterMap(above + below, Announcement),
                FilterMap(above, Announcement), FilterMap(below, Announcement));
  }

  lemma AppendAfter<T>(head: seq<T>, whole: seq<T>, a: seq<T>, b: seq<T>)
    requires whole == a + b
    ensures head + whole == (head + a) + b
  {
  }

  // ---------------------------------------------------------------------
  // Informatik registrations

  /** The Informatik registration producer. It fetches nothing, so it always
      yields the expanded structured registrations. */
  function ScrapeInformatikAnmeldungen(): (r: seq<Record>)
    ensures r == Expand(Table, Registrations)
    ensures |r| == 4
    ensures forall x | x in r :: IsInformatik(x)
  {
    ShippedTable();
    ExpandInformatik(Table, Registrations);
    Expand(Table, Registrations)
  }

  /** The registration default is unreachable: the producer can neither fail nor
      come back empty. */
  lemma InformatikAnmeldungenDefaultUnreachable()
    ensures ScrapeInformatikAnmeldungen() != DefaultInformatikAnmeldungen()
  {
    assert |DefaultInformatikAnmeldungen()| == 1;
  }

  // ---------------------------------------------------------------------
  // general registrations

  /** The general registration filter on the lower-cased text. */
  predicate RegistrationWording(low: string) {
    Contains(low, "anmeldung") || Contains(low, "bewerbung") || Contains(low, "einschreibung")
  }

  /** A registration heading: kept when it mentions registration, application
      or enrolment; the date is the leftmost date in it, else a placeholder. */
  function Termin(e: Element): (r: Option<Record>)
    ensures r.Some? <==> RegistrationWording(Lower(Trim(e.text)))
    ensures r.Some? ==> r.value.description == Some(Trim(e.text))
    ensures r.Some? ==> r.value.date == DateOr(Trim(e.text), "Datum siehe Website")
  {
    var text := Trim(e.text);
    var low := Lower(text);
    if RegistrationWording(low)
    then Some(Basic("Anmeldung/Bewerbung", DateOr(text, "Datum siehe Website"), "w-hs.de")
                .(description := Some(text)))
    else None
  }

  /** The loop over the general registration pages: a page that failed to load
      is skipped, and the loop stops after the first page with a match. (The
      source accumulates across pages, but only while nothing has been found,
      so the records come from that one page.) */
  function TerminLoop(pages: seq<Page>): (r: seq<Record>)
    ensures r != [] ==>
              exists k | 0 <= k < |pages| :: pages[k].Ok? && r == FilterMap(pages[k].value, Termin)
    ensures (forall k | 0 <= k < |pages| :: pages[k].Err?) ==> r == []
  {
    FirstFoundEmpty(pages, Termin);
    FirstFound(pages, Termin)
  }

  /** The loop yields exactly the matches of the first page that has any. */
  lemma TerminLoopFirst(pages: seq<Page>, k: nat)
    requires k < |pages| && Finds(pages[k], Termin)
    requires forall j | 0 <= j < k :: !Finds(pages[j], Termin)
    ensures TerminLoop(pages) == FilterMap(pages[k].value, Termin)
  {
    FirstFoundIsFirst(pages, Termin, k);
  }

  /** The loop comes back empty exactly when no page has a match. */
  lemma TerminLoopEmpty(pages: seq<Page>)
    ensures TerminLoop(pages) == [] <==> forall k | 0 <= k < |pages| :: !Finds(pages[k], Termin)
  {
    FirstFoundEmpty(pages, Termin);
  }

  /** The registration producer: the Informatik registrations when the nested
      cached call yields any; otherwise the first page's matches, at most five;
      otherwise, or when the nested call throws, the default. */
  function ScrapeAnmeldungTermine<E>(informatik: Result<seq<Record>, E>, pages: seq<Page>): (r: seq<Record>)
    ensures informatik.Err? ==> r == DefaultAnmeldungTermine()
    ensures informatik.Ok? && informatik.value != [] ==> r == informatik.value
    ensures informatik.Ok? && informatik.value == [] ==> 0 < |r| <= GeneralLimit
    ensures informatik.Ok? && informatik.value == [] ==>
              r == if TerminLoop(pages) != [] then Take(TerminLoop(pages), GeneralLimit) else DefaultAnmeldungTermine()
    ensures |r| > 0
  {
    match informatik
    case Err(_) => DefaultAnmeldungTermine()
    case Ok(records) =>
      if |records| > 0 then records
      else
        var termine := TerminLoop(pages);
        if |termine| > 0 then Take(termine, GeneralLimit) else DefaultAnmeldungTermine()
  }

  // ---------------------------------------------------------------------
  // general exams

  /** The general exam filter on the lower-cased heading and text. */
  predicate ExamWording(low: string) {
    Contains(low, "klausur") || Contains(low, "prüfung")
  }

  /** An event on the general search page: kept when heading plus text mention
      an exam; the date is the leftmost date there, else a placeholder. */
  function KlausurTermin(e: Element): (r: Option<Record>)
    ensures r.Some? <==> ExamWording(Lower(Trim(e.heading) + " " + Trim(e.text)))
    ensures r.Some? ==> r.value.description == Some(OrElse(Trim(e.heading), Take(Trim(e.text), 100) + "..."))
    ensures r.Some? ==> r.value.date == DateOr(Trim(e.heading) + " " + Trim(e.text), "siehe Ankündigung")
  {
    var text := Trim(e.text);
    var title := Trim(e.heading);
    var full := title + " " + text;
    var low := Lower(full);
    if ExamWording(low)
    then Some(Basic("Termin/Prüfung", DateOr(full, "siehe Ankündigung"), "w-hs.de")
                .(description := Some(OrElse(title, Take(text, 100) + "..."))))
    else None
  }

  /** The exam producer: the Informatik exams when the nested cached call yields
      any; otherwise at most five matches from the general page; otherwise, or
      when anything throws, the default. */
  function ScrapeKlausurTermine<E>(informatik: Result<seq<Record>, E>, page: Page): (r: seq<Record>)
    ensures informatik.Err? ==> r == DefaultKlausurTermine()
    ensures informatik.Ok? && informatik.value != [] ==> r == informatik.value
    ensures informatik.Ok? && informatik.value == [] && page.Err? ==> r == DefaultKlausurTermine()
    ensures informatik.Ok? && informatik.value == [] ==> 0 < |r| <= GeneralLimit
    ensures informatik.Ok? && informatik.value == [] && page.Ok? ==>
              r == if FilterMap(page.value, KlausurTermin) != []
                   then Take(FilterMap(page.value, KlausurTermin), GeneralLimit)
                   else DefaultKlausurTermine()
    ensures |r| > 0
  {
    match informatik
    case Err(_) => DefaultKlausurTermine()
    case Ok(records) =>
      if |records| > 0 then records
      else match page
        case Err(_) => DefaultKlausurTermine()
        case Ok(elements) =>
          var klausuren := FilterMap(elements, KlausurTermin);
          if |klausuren| > 0 then Take(klausuren, GeneralLimit) else DefaultKlausurTermine()
  }

  /** Under a total network failure the Informatik exam producer still delivers
      its two-record default, so the exam producer passes that on and never
      reaches its own default; the registration producer passes on the four
      structured registrations, which need no fetch. Neither general scrape runs. */
  lemma NetworkFailureDefaults<E>(e: FetchError, pages: seq<Page>)
    ensures ScrapeKlausurTermine<E>(Ok(ScrapeInformatikPruefungen(Err(e))), Err(e)) == DefaultInformatikPruefungen()
    ensures DefaultInformatikPruefungen() != DefaultKlausurTermine()
    ensures ScrapeAnmeldungTermine<E>(Ok(ScrapeInformatikAnmeldungen()), pages) == Expand(Table, Registrations)
    ensures Expand(Table, Registrations) != DefaultAnmeldungTermine()
  {
    assert DefaultInformatikPruefungen()[0].kind != DefaultKlausurTermine()[0].kind;
    assert |DefaultAnmeldungTermine()| == 1;
  }

  /** An Informatik announcement without a date is dropped; a general event
      without a date is kept with the placeholder. */
  lemma UndatedElements(e: Element)
    requires forall p :: !MatchesAt(Trim(e.text), p)
    requires forall p :: !MatchesAt(Trim(e.heading) + " " + Trim(e.text), p)
    ensures Announcement(e).None?
    ensures KlausurTermin(e).Some? ==> KlausurTermin(e).value.date == "siehe Ankündigung"
    ensures Termin(e).Some? ==> Termin(e).value.date == "Datum siehe Website"
  {
  }
}
