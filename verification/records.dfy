/** The data the scraper produces and the bot reads: topic records, the
    snapshot of all topics, and the shapes in which parsed pages reach the
    extractors. */
module Records {
  import opened Wrappers

  /** One topic record. JavaScript objects of several shapes share this type;
      a property a shape does not set is `None` (it reads as `undefined`).
      `kind` is the record's `type` property. */
  datatype Record = Record(
    kind: string,
    description: Option<string>,
    title: Option<string>,
    content: Option<string>,
    date: string,
    source: string,
    department: Option<string>,
    anmeldung: Option<string>,       // registration window of an exam period
    pruefungszeit: Option<string>,   // exam window of a registration period
    campusPortal: Option<string>,
    time: Option<string>,
    link: Option<string>)

  /** A record with only the properties every shape carries. */
  function Basic(kind: string, date: string, source: string): Record {
    Record(kind, None, None, None, date, source, None, None, None, None, None, None)
  }

  const InformatikDepartment: string := "Informatik"

  /** `record.department === 'Informatik'`. */
  predicate IsInformatik(r: Record) {
    r.department == Some(InformatikDepartment)
  }

  /** One element selected from an HTML page: its whole text, the text of its
      first heading-like descendant and of its first paragraph-like descendant
      (the empty string when there is none), all untrimmed. */
  datatype Element = Element(text: string, heading: string, paragraph: string)

  /** One `<item>` of the news feed, untrimmed. `date` is the publication date
      already passed through the date formatter, absent when it did not parse. */
  datatype FeedItem = FeedItem(title: string, description: string, link: string, date: Option<string>)

  /** The parsed news feed: its items, and the elements an HTML selector finds in it. */
  datatype FeedDoc = FeedDoc(items: seq<FeedItem>, elements: seq<Element>)

  /** The bot's view of the university data. Each field is optional, since the
      bot starts from the empty object before the first aggregation. */
  datatype Snapshot = Snapshot(
    anmeldung: Option<seq<Record>>,
    klausuren: Option<seq<Record>>,
    aktuelles: Option<seq<Record>>,
    lastUpdated: Option<string>,
    university: Option<string>)

  const EmptySnapshot: Snapshot := Snapshot(None, None, None, None, None)

  const UniversityName: string := "Westfälische Hochschule"
}
