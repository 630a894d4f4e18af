/** The news producer (`scrapeAktuelles`): feed items cleaned and truncated,
    with a fallback scan of page elements when the feed yields nothing. */
module News {
  import opened Wrappers
  import opened Text
  import opened Records
  import opened Seqs
  import opened Fetch

  /** Only this many feed items, or fallback elements, are inspected. */
  const InspectLimit: nat := 5

  /** A title must be longer than this to be kept. */
  const MinTitleLength: nat := 10

  const Ellipsis: string := "..."

  function DefaultNews(): seq<Record> {
    [ Basic("Default", "Aktuell", "Fallback")
        .(title := Some("Aktuelle Informationen"),
          content := Some("Besuchen Sie die offizielle Website für die neuesten Ankündigungen.")) ]
  }

  /** Feed title: longer than 100 characters becomes its first 97 plus an ellipsis. */
  function FeedTitle(title: string): (r: string)
    ensures |r| <= 100
    ensures |title| <= 100 ==> r == title
    ensures |title| > 100 ==> r == title[..97] + Ellipsis
  {
    if |title| > 100 then title[..97] + Ellipsis else title
  }

  /** Feed body: longer than 200 characters becomes its first 197 plus an ellipsis. */
  function FeedContent(content: string): (r: string)
    ensures |r| <= 200
    ensures |content| <= 200 ==> r == content
    ensures |content| > 200 ==> r == content[..197] + Ellipsis
  {
    if |content| > 200 then content[..197] + Ellipsis else content
  }

  /** One feed item: kept when its trimmed title is longer than ten characters;
      the description loses its tags before it is trimmed and truncated. */
  function FeedRecord(item: FeedItem): (r: Option<Record>)
    ensures r.Some? <==> |Trim(item.title)| > MinTitleLength
    ensures r.Some? ==> r.value.title == Some(FeedTitle(Trim(item.title)))
    ensures r.Some? ==> r.value.content == Some(FeedContent(Trim(StripTags(Trim(item.description)))))
    ensures r.Some? ==> r.value.date == OrElse(item.date.GetOr(""), "Aktuell")
  {
    var title := Trim(item.title);
    var description := Trim(item.description);
    var link := Trim(item.link);
    if title != "" && |title| > MinTitleLength then
      var clean := Trim(StripTags(description));
      Some(Basic("RSS News", OrElse(item.date.GetOr(""), "Aktuell"), "w-hs.de RSS")
             .(title := Some(FeedTitle(title)),
               content := Some(FeedContent(clean)),
               link := Some(link)))
    else None
  }

  /** The first five feed items, cleaned. */
  function FeedNews(items: seq<FeedItem>): seq<Record> {
    FilterMap(Take(items, InspectLimit), FeedRecord)
  }

  /** Fallback title: the heading, else the first line of the text, cut to 100
      characters with no ellipsis. */
  function FallbackTitle(e: Element): string {
    OrElse(Trim(e.heading), Trim(FirstLine(e.text)))
  }

  /** Fallback body: the paragraph, else the whole text; over 200 characters
      it keeps the first 200 and gains an ellipsis. */
  function FallbackContent(content: string): (r: string)
    ensures |r| <= 203
    ensures |content| <= 200 ==> r == content
    ensures |content| > 200 ==> r == content[..200] + Ellipsis
  {
    if |content| > 200 then content[..200] + Ellipsis else content
  }

  function FallbackRecord(e: Element): (r: Option<Record>)
    ensures r.Some? <==> |FallbackTitle(e)| > MinTitleLength
    ensures r.Some? ==> r.value.title == Some(Take(FallbackTitle(e), 100))
    ensures r.Some? ==> r.value.content == Some(FallbackContent(OrElse(Trim(e.paragraph), Trim(e.text))))
    ensures r.Some? ==> r.value.date == "Aktuell"
  {
    var title := FallbackTitle(e);
    var content := OrElse(Trim(e.paragraph), Trim(e.text));
    if title != "" && |title| > MinTitleLength then
      Some(Basic("Web News", "Aktuell", "w-hs.de")
             .(title := Some(Take(title, 100)),
               content := Some(FallbackContent(content))))
    else None
  }

  /** The first five selected elements, turned into records. */
  function FallbackNews(elements: seq<Element>): seq<Record> {
    FilterMap(Take(elements, InspectLimit), FallbackRecord)
  }

  /** `scrapeAktuelles`: feed records when any; else, once the fallback page
      loaded, records from the elements of the feed document itself (the
      fallback page's contents are never read); the default when nothing was
      found or a fetch failed. */
  function ScrapeAktuelles<P>(feed: Result<FeedDoc, FetchError>, fallback: Result<P, FetchError>): (r: seq<Record>)
    ensures feed.Err? ==> r == DefaultNews()
    ensures feed.Ok? && FeedNews(feed.value.items) != [] ==> r == FeedNews(feed.value.items)
    ensures feed.Ok? && FeedNews(feed.value.items) == [] && fallback.Err? ==> r == DefaultNews()
    ensures feed.Ok? && FeedNews(feed.value.items) == [] && fallback.Ok? ==>
              r == if FallbackNews(feed.value.elements) != [] then FallbackNews(feed.value.elements) else DefaultNews()
    ensures 0 < |r| <= InspectLimit
  {
    match feed
    case Err(_) => DefaultNews()
    case Ok(doc) =>
      var news := FeedNews(doc.items);
      if |news| > 0 then news
      else match fallback
        case Err(_) => DefaultNews()
        case Ok(_) =>
          var scanned := FallbackNews(doc.elements);
          if |scanned| > 0 then scanned else DefaultNews()
  }

  /** Every record from the feed has a title of at most 100 characters, a body
      of at most 200 characters, and no tag left in its body. */
  lemma FeedNewsBounds(items: seq<FeedItem>)
    ensures forall r | r in FeedNews(items) ::
              r.title.Some? && |r.title.value| <= 100 &&
              r.content.Some? && |r.content.value| <= 200 && TagFree(r.content.value)
  {
    forall r | r in FeedNews(items)
      ensures r.title.Some? && |r.title.value| <= 100
      ensures r.content.Some? && |r.content.value| <= 200 && TagFree(r.content.value)
    {
      var item :| item in Take(items, InspectLimit) && FeedRecord(item) == Some(r);
      var clean := Trim(StripTags(Trim(item.description)));
      StripTagsProperties(Trim(item.description));
      TrimKeepsTagFree(StripTags(Trim(item.description)));
      FeedContentTagFree(clean);
    }
  }

  /** An infix of a tag-free string is tag-free. */
  lemma TagFreeInfix(s: string, i: nat, j: nat)
    requires TagFree(s) && i <= j <= |s|
    ensures TagFree(s[i..j])
  {
    var t := s[i..j];
    forall a, b | 0 <= a < b < |t| && t[a] == '<' ensures t[b] != '>' {
      assert t[a] == s[i + a] && t[b] == s[i + b];
    }
  }

  /** Trimming cuts out an infix, so it cannot create a tag. */
  lemma TrimKeepsTagFree(s: string)
    requires TagFree(s)
    ensures TagFree(Trim(s))
  {
    var t := TrimStart(s);
    TagFreeInfix(s, |s| - |t|, |s|);
    TagFreeInfix(t, 0, |TrimEnd(t)|);
    TrimIsInner(s);
  }

  /** Truncation keeps a prefix and appends dots, so it cannot create a tag. */
  lemma FeedContentTagFree(s: string)
    requires TagFree(s)
    ensures TagFree(FeedContent(s))
  {
    var r := FeedContent(s);
    if |s| > 200 {
      forall a, b | 0 <= a < b < |r| && r[a] == '<' ensures r[b] != '>' {
        assert a < 197;
        if b < 197 {
          assert r[b] == s[b];
        } else {
          assert r[b] == '.';
        }
      }
    }
  }

  /** A fallback body can be three characters longer than the feed's limit. */
  lemma FallbackContentReaches203()
    ensures |FallbackContent(seq(201, _ => 'a'))| == 203
  {
  }

  /** Items after the fifth are never looked at. */
  lemma OnlyFirstFiveInspected(doc: FeedDoc, more: seq<FeedItem>, extra: seq<Element>)
    requires |doc.items| >= InspectLimit && |doc.elements| >= InspectLimit
    ensures FeedNews(doc.items + more) == FeedNews(doc.items)
    ensures FallbackNews(doc.elements + extra) == FallbackNews(doc.elements)
  {
    assert Take(doc.items + more, InspectLimit) == Take(doc.items, InspectLimit);
    assert Take(doc.elements + extra, InspectLimit) == Take(doc.elements, InspectLimit);
  }

  /** What the fallback page holds never affects the result. */
  lemma FallbackPageIgnored<P>(feed: Result<FeedDoc, FetchError>, p1: P, p2: P)
    ensures ScrapeAktuelles(feed, Ok(p1)) == ScrapeAktuelles(feed, Ok(p2))
  {
  }

  /** Under a total network failure the producer yields the default news. */
  lemma NewsNetworkFailure<P>(e: FetchError, e2: FetchError, items: seq<FeedItem>, elements: seq<Element>)
    requires forall k | 0 <= k < |items| :: |Trim(items[k].title)| <= MinTitleLength
    ensures ScrapeAktuelles<P>(Err(e), Err(e2)) == DefaultNews()
    ensures ScrapeAktuelles<P>(Ok(FeedDoc(items, elements)), Err(e2)) == DefaultNews()
  {
    assert forall it | it in Take(items, InspectLimit) :: FeedRecord(it).None?;
  }
}
