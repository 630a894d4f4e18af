# WH-Buddy scraper and bot core, in Dafny

This project models the core of `index.js`. That file is a bot for the
Westfälische Hochschule (WH). It scrapes the university's web pages and news
feed for registration windows, exam periods and news. It caches each topic
for thirty minutes and aggregates the three topics into one snapshot. It
then answers chat messages: a rule-based intent classifier picks a topic,
and a template-based reply generator writes the answer.

One module stands for each part of the program:

| module | file | models |
|---|---|---|
| `Wrappers` | wrappers.dfy | `Option` / `Result` |
| `Text` | text.dfy | `toLowerCase`, `trim`, `includes`, the `a.*b` regex, `substring`, tag stripping |
| `Records` | records.dfy | topic records, the snapshot, parsed page elements and feed items |
| `Seqs` | seqs.dfy | `Array.prototype.filter` and push-when-matched scans |
| `Fetch` | fetch.dfy | `fetchPage` and its retry policy |
| `TtlCache` | ttl_cache.dfy | `isCacheValid`, `getCachedOrFetch` |
| `Structured` | structured.dfy | the 2025 Informatik exam table and its expansion into records |
| `DatePattern` | date_pattern.dfy | the leftmost match of `(\d{1,2})\.(\d{1,2})\.(\d{4})` |
| `Extractors` | extractors.dfy | the exam and registration `scrape*` bodies and the `getDefault*` lists |
| `News` | news.dfy | `scrapeAktuelles`: feed cleanup, truncation, fallback scan |
| `Aggregator` | aggregator.dfy | `getAllUniversityData` |
| `Classifier` | classifier.dfy | `ConversationalBot.analyzeIntent` |
| `Response` | response.dfy | `ConversationalBot.generateFriendlyResponse` |
| `Pipeline` | pipeline.dfy | the producers wired into the cache and the aggregator, as the scraper runs them |
| `IntentExamples` | intent_examples.dfy | worked classifier examples: "hallo", "start" and an exam question that opens with "hi" |

The model replaces everything outside the program with inputs:

- **Fetching.** A fetch gets the sequence of outcomes of its HTTP attempts.
- **Pages.** A parsed page is the list of elements its selector matches, in document order. Each element is given by its text, its first heading and its first paragraph.
- **Cache.** A cache call gets the current time and the outcome the producer would deliver.
- **Aggregation.** The aggregator gets the three settled results.
- **Replies.** The reply generator gets the opener's and the farewell's indices into their pools, and the formatted clock string.

Quirks of the code that the model keeps:

- **News fallback scan.** The fallback news scan reads the elements of the feed document. It never reads the fallback page it fetched (`index.js:349-351`). The page's fetch can still fail, and a failure yields the default news. `News.FallbackPageIgnored` states that the page's contents never matter.
- **Fallback truncation.** The fallback scan does not truncate like the feed does. Titles are cut to 100 characters with no ellipsis. Bodies keep 200 characters and gain `...`, so a body can reach 203 characters.
- **Informatik exams.** The structured Informatik exam records are emitted only after the Informatik page loads. On a fetch error the producer returns the two-record default.
- **Producers never fail.** Every producer catches its own errors and returns its default instead (`index.js:156-158`, `183-185`, `267-269`, `305-307`, `372-374`). So the cache only ever sees a successful outcome. Its stale-data and error branches never run in this program, and the aggregator never substitutes a default. A failed fetch is cached for thirty minutes like real data and replaces good data. The `Pipeline` module states this on the composed calls.
- **Total network failure.** When every fetch fails, the exam topic still holds the two Informatik default records and never the general exam default. The registration topic holds the four structured registrations, which need no fetch.
- **General registrations.** The registration scrape keeps the matches of the first page that has any. Matches are collected across pages only while nothing has been found, so every kept record comes from that one page.

## Model

| member | source | states |
|---|---|---|
| Fetch.FetchPage | index.js:49-73 | success exactly when some attempt among the first `retries + 1` returns status 200; the page is that first success's page and every earlier attempt failed; otherwise all `retries + 1` attempts were made and the last attempt's error is thrown; one pause precedes each retry |
| Fetch.FetchPageIgnoresLaterOutcomes | index.js:66-71 | outcomes beyond the retry budget never influence the result |
| Fetch.MoreRetriesKeepSuccess | index.js:49-73 | a larger budget never turns a success into a failure, nor changes the page or the attempt count |
| Fetch.DefaultBudget | index.js:49-69 | with the default of 3 retries there are at most 4 attempts and at most 6000 ms of pauses |
| TtlCache.GetCachedOrFetch | index.js:85-107 | a valid entry is served without invoking the producer, and the cache is unchanged; on a miss, success overwrites the key with the data stamped `now`; failure serves the old entry of any age, or propagates the error when there is none; no key is ever removed and no other key changes |
| TtlCache.ValidityWindow | index.js:79-83 | an entry is valid strictly before 1 800 000 ms after its timestamp, so an entry exactly thirty minutes old is stale |
| TtlCache.SecondCallWithinTtl | index.js:86-98 | after a successful fetch, a second call within the window does not invoke the producer and returns the same data |
| TtlCache.StaleFallback | index.js:99-104 | after a successful fetch, a later failure at any time returns the earlier data and leaves the cache as it was |
| TtlCache.RunProvenance | index.js:93-96 | over any sequence of calls no key is forgotten, and every entry is either the initial one or exactly the data and time of some successful call |
| Structured.Partner | index.js:125 | the partner window is always one of the period's other windows, the same-index one when present and non-empty; it is missing exactly when the other list is empty |
| Structured.ExpandLayout | index.js:119-130 | one record per window, in period-then-index order: window `i` of period `n` sits after every window of the earlier periods and is that window's record |
| Structured.ExpandPartners | index.js:119-130 | every expanded record's partner window comes from its own period's other list, and is missing only when that list is empty |
| Structured.ExpandInformatik | index.js:166-181 | every expanded record is tagged Informatik, has source `w-hs.de/informatik`, and is dated with one of the table's windows |
| Structured.ShippedTable | index.js:27-46 | the shipped table yields four exam and four registration records; exam 2 is "Prüfungsperiode 1 - Zeitraum 2" with its matching registration window; registration 4 is "Prüfungsperiode 3 - Anmeldung 1" |
| DatePattern.TryAt | index.js:141 | the backtracking attempt at one position succeeds exactly when some day/month width pair fits there, and the widths it reports fit |
| DatePattern.FirstDate | index.js:141 | no date exactly when the pattern matches nowhere; otherwise the result is a whole match that starts at the leftmost matching position |
| DatePattern.FirstDateUnique | index.js:141 | any leftmost match is the one returned, so greedy backtracking cannot change the date |
| DatePattern.DateOr | index.js:252-256 | the placeholder when the pattern is absent, else the leftmost date |
| DatePattern.FirstDateExample | index.js:141 | "Klausur am 27.01.2025 beginnt" yields "27.01.2025" |
| DatePattern.NoDigitNoDate | index.js:294-298 | a text without digits always gets the placeholder |
| DatePattern.DateOrExample | index.js:294-298 | "Klausur am Montag" gets the placeholder "siehe Ankündigung" |
| Extractors.Announcement | index.js:133-152 | an announcement is kept exactly when it passes the keyword filter and has a date; it is tagged Informatik, dated with the leftmost date in its text, and described by its trimmed heading, else the first 80 characters of its text plus "..." |
| Extractors.ScrapeInformatikPruefungen | index.js:110-160 | on a fetch error, the two-record default; otherwise the structured exam records followed by the dated announcements; never empty, and all Informatik |
| Extractors.AnnouncementsInOrder | index.js:133-152 | announcements keep document order: elements further down the page add their records after those of the elements above |
| Extractors.ScrapeInformatikAnmeldungen | index.js:163-188 | exactly the expanded structured registrations: four records, all Informatik |
| Extractors.InformatikAnmeldungenDefaultUnreachable | index.js:181-186 | the registration default can never be returned |
| Extractors.Termin | index.js:246-259 | a heading is kept exactly when its lower-cased trimmed text mentions "anmeldung", "bewerbung" or "einschreibung"; it is described by that text and dated with its leftmost date, else "Datum siehe Website" |
| Extractors.TerminLoop | index.js:240-266 | a non-empty result is the matches of one page that loaded; if every page failed, nothing is found |
| Extractors.TerminLoopFirst | index.js:242-261 | the loop yields exactly the matches of the first loaded page that has any |
| Extractors.TerminLoopEmpty | index.js:240-266 | the loop comes back empty exactly when no loaded page has a match |
| Extractors.ScrapeAnmeldungTermine | index.js:225-271 | the Informatik registrations when there are any; else the first five matches of the page loop when it finds any, else the default; the default when the nested call fails; never empty |
| Extractors.KlausurTermin | index.js:286-302 | an event is kept exactly when its lower-cased heading plus text mentions "klausur" or "prüfung"; it is described by its heading, else the first 100 characters of its text plus "...", and dated with the leftmost date, else "siehe Ankündigung" |
| Extractors.ScrapeKlausurTermine | index.js:272-309 | the Informatik exams when there are any; else, once the page loads, its first five matches, or the default when it has none; the default when the page or the nested call fails; never empty |
| Extractors.NetworkFailureDefaults | index.js:154-158 | when every fetch fails, the exam producer passes on the two Informatik default records, never its own default, and the registration producer passes on the four structured registrations, never its own default |
| Extractors.UndatedElements | index.js:141-150 | an undated Informatik announcement is dropped, while undated general items are kept with their placeholder |
| News.FeedTitle | index.js:335 | a feed title is at most 100 characters: kept when short, else its first 97 characters plus "..." |
| News.FeedContent | index.js:336 | a feed body is at most 200 characters: kept when short, else its first 197 characters plus "..." |
| News.FeedRecord | index.js:324-342 | an item is kept exactly when its trimmed title is longer than 10 characters; the title is truncated and the body is de-tagged, trimmed and truncated |
| News.FallbackContent | index.js:362 | a fallback body is at most 203 characters: its first 200 plus "..." when longer |
| News.FallbackRecord | index.js:354-367 | an element is kept exactly when its title is longer than 10 characters; the title is cut to 100 characters, the body is the paragraph or else the text, truncated as a fallback body, and the date is "Aktuell" |
| News.ScrapeAktuelles | index.js:310-377 | feed records when there are any; the default on a feed failure, or when the fallback fetch fails after an empty feed; after an empty feed and a loaded fallback page, the scan of the feed document's own elements, or the default when it finds nothing; between 1 and 5 records |
| News.FeedNewsBounds | index.js:330-336 | every feed record has a title of at most 100 characters and a body of at most 200 characters with no tag left |
| News.TrimKeepsTagFree | index.js:332 | trimming a tag-free text leaves it tag-free |
| News.FeedContentTagFree | index.js:336 | truncating a tag-free body leaves it tag-free |
| News.FallbackContentReaches203 | index.js:362 | a 201-character fallback body becomes 203 characters long |
| News.OnlyFirstFiveInspected | index.js:321-322 | items and elements after the fifth never change the result |
| News.FallbackPageIgnored | index.js:349-351 | the fallback page's contents never affect the result |
| News.NewsNetworkFailure | index.js:371-374 | a failed feed, or an unusable feed plus a failed fallback fetch, yields the default news |
| Text.Trim | index.js:519 | the trimmed text neither starts nor ends with white space, and is no longer than the input |
| Text.TrimKeepsLower | index.js:519 | trimming a lower-case text leaves it lower-case |
| Text.StripTagsProperties | index.js:332 | after tag removal no `<` is followed by a `>`; nothing is added; a text without `>` is unchanged |
| Text.StripTagsKeepsText | index.js:332 | text outside a tag survives: in `a<t>b`, with no `<` in `a` and no `>` in `t`, `a` is kept as it is, the tag is removed, and `b` is stripped in turn |
| Text.StripTagsKeepsPrefix | index.js:332 | the characters before the first `<` are kept unchanged |
| Text.StripTagsDropsTag | index.js:332 | a tag whose text has no `>` is removed whole, up to and including its first `>` |
| Text.StripTagsIdempotent | index.js:332 | removing tags twice is the same as removing them once |
| Text.ThenNeedsBoth | index.js:523 | `a.*b` can only match where both `a` and `b` occur |
| Seqs.Filter | index.js:596 | the filtered list is no longer than the input and holds exactly the input's elements that satisfy the predicate |
| Seqs.FilterAppend | index.js:596 | filtering a concatenation filters its parts one after the other, so the kept elements stay in order |
| Seqs.FilterCount | index.js:596 | each satisfying element is kept as often as it occurs, and the others never |
| Seqs.FilterHead | index.js:657 | the first element that satisfies the predicate heads the filtered list |
| Seqs.FirstFound | index.js:240-266 | a non-empty scan result is what the scan finds in one list that arrived |
| Seqs.FirstFoundIsFirst | index.js:242-261 | the scan yields exactly what the first arrived list with a find yields |
| Seqs.FirstFoundEmpty | index.js:240-266 | the scan comes back empty exactly when no list finds anything |
| Aggregator.GetAllUniversityData | index.js:433-454 | each topic field is the producer's value when it was fulfilled, else that topic's default; the timestamp is set; the university is "Westfälische Hochschule" |
| Aggregator.AggregateIsPopulated | index.js:443-449 | since producers never return empty lists, every field of the snapshot is a non-empty list |
| Aggregator.PartialFailure | index.js:437-446 | each topic's field depends on that topic's outcome alone, whichever others fail; a failed topic gets its own default |
| Classifier.Normalize | index.js:519 | the normalised message is trimmed and already lower-case |
| Classifier.NormalizeIdempotent | index.js:519 | normalising twice is the same as normalising once |
| Classifier.FirstMatch | index.js:518-580 | the intent of the first matching rule, Unknown when no rule matches |
| Classifier.ClassifyIsFirstMatch | index.js:522-580 | the chain of tests is the rule table in the order Informatik, Anmeldung, Klausuren, Aktuelles, Help, University, Goodbye, pure greeting, exact greeting; the first match wins |
| Classifier.GreetingIff | index.js:559-576 | Greeting exactly when no keyword group matches and the message is a pure greeting or an exact greeting word |
| Classifier.GreetingPatternExamples | index.js:567 | "guten morgen" and "moin." are pure greetings |
| Classifier.StartIsExactGreeting | index.js:567-573 | "start" is not a pure greeting but is an exact greeting word |
| Classifier.InformatikOutranksExams | index.js:522-539 | "Informatik Klausur" mentions an exam but is classified Informatik |
| Classifier.CaseInsensitive | index.js:519 | lower-casing the message never changes the intent |
| Classifier.PaddingInsensitive | index.js:519 | surrounding white space never changes the intent |
| Response.GenerateFriendlyResponse | index.js:582-683 | every reply opens with the drawn opener, except the farewell, which opens with the drawn farewell |
| Response.JoinContainsPart | index.js:598-600 | each joined entry occurs in the joined text |
| Response.ListAnswerShows | index.js:598-609 | a list answer shows every entry it is given and the timestamp |
| Response.ShownProperties | index.js:596-607 | the shown records are the first three Informatik records when the list has any, else the first three records; so at most three, none exactly when the list is empty, led by the first Informatik record, else by the first record |
| Response.DatedAnswerShowsStamp | index.js:602-666 | the Informatik answer and every non-empty list answer show `Stand:` with the time |
| Response.UndatedAnswerIgnoresClock | index.js:587-682 | every other answer is the same whatever the time |
| Response.RegistrationAnswerLists | index.js:589-609 | each shown registration appears, in its Informatik form when the list has Informatik records, else in its general form |
| Response.ExamAnswerLists | index.js:610-630 | each shown exam appears, in its Informatik form when the list has Informatik records, else in its general form |
| Response.NewsAnswerLists | index.js:631-647 | each of the first three news records appears in the news answer |
| Response.NewsEntryParts | index.js:636-645 | a news entry always opens with the title; it shows the body exactly when the body is longer than 10 characters and the date exactly when it is not "Aktuell", each independently of the other |
| Response.InformatikAnswerNamesRegistration | index.js:650-662 | whenever the snapshot has an Informatik registration, the Informatik answer names the first one with its date, whatever the exams |
| Response.InformatikAnswerNamesExam | index.js:650-667 | whenever the snapshot has an Informatik exam, the Informatik answer names the first one with its date, whatever the registrations |
| Response.InformatikBodyWithout | index.js:655-667 | without an Informatik registration the answer body is that of a snapshot with no registrations; likewise for exams |
| Response.InformatikParagraphsAbsent | index.js:650-669 | without an Informatik registration the whole answer reads as if there were no registrations; likewise for exams |
| Response.EmptySnapshotAnswers | index.js:589-633 | before the first aggregation each list answer is the opener followed by its "nothing found" text |
| Response.EmptySnapshotInformatik | index.js:650-669 | before the first aggregation the Informatik answer has neither the registration nor the exam paragraph |
| Response.AggregatedListAnswersAreDated | index.js:443-449 | a list answer built from an aggregated snapshot is never the "nothing found" text; it is dated |
| Pipeline.ProducedIsStored | index.js:85-98 | a cache access over a producer that cannot throw always succeeds, and once the entry has expired it stores exactly what the producer returned, stamped now |
| Pipeline.KlausurenStep | index.js:272-280 | the exam topic always succeeds; while the exam entry is valid it is served and the nested Informatik entry is left untouched |
| Pipeline.KlausurenFailureCachesDefault | index.js:110-158 | a failed Informatik page fetch after both entries expired serves the two Informatik default records and stores them under both keys, replacing whatever was there |
| Pipeline.AnmeldungStep | index.js:225-231 | the registration topic always succeeds; while the registration entry is valid it is served and the nested Informatik entry is left untouched |
| Pipeline.AnmeldungServesStructured | index.js:225-231 | after both entries expired the registration topic serves and stores the structured registrations, whatever the general pages hold |
| Pipeline.AktuellesFailureCachesDefault | index.js:310-374 | a failed news fetch after the entry expired serves and stores the default news, replacing whatever was there |
| Pipeline.AggregateNeverSubstitutes | index.js:437-447 | with every topic fulfilled, each snapshot field holds exactly what its topic returned, never a default |
| IntentExamples.NoInformatikKeyword | index.js:523 | a message without f, o, m, p and without "cs" matches no Informatik keyword |
| IntentExamples.NoAnmeldungKeyword | index.js:530 | a message without m, b, g, f and without "deadline" matches no registration keyword |
| IntentExamples.GreetingsLackKeywords | index.js:522-561 | neither "hallo" nor "start" matches any keyword group |
| IntentExamples.HalloIsGreeting | index.js:518-576 | "hallo" is classified Greeting |
| IntentExamples.StartIsGreeting | index.js:518-576 | "start" is classified Greeting, by the exact-word list |
| IntentExamples.QuestionIsAboutExams | index.js:518-539 | "hi, wann ist die nächste klausur?" is classified Klausuren, not Greeting |

## Left out

- Express routes, CORS, the Telegram webhook and `sendMessage`, the cron schedule, `SIGTERM` and environment checks: transport and process wiring, outside the core.
- axios and cheerio: replaced by attempt outcomes and by lists of selected elements; the CSS selectors themselves are not modelled.
- The 2000 ms `delay`: counted as pauses, not timed.
- Concurrency: `Promise.allSettled` is modelled by its settled results. Interleavings of concurrent cache calls are not modelled.
- `formatRSSDate`, `Date.now()`, `new Date().toISOString()` and `toLocaleString`: the formatted values are inputs.
- `Math.random()` in `getRandomGreeting` / `getRandomGoodbye`: an index into the pool is an input.
- Logging (`console.log` / `console.error`).
- TtlCache.GetCachedOrFetch: uses one `now` for both the validity test and the new entry's timestamp. The source reads the clock again after the producer finishes.
- Fetch.FetchPage: requires at least `retries + 1` attempt outcomes. These are the outcomes the network would give; the network itself is not modelled.
- Text.Trim: its contract does not restate the full `trim` behaviour. `TrimPadding` and `TrimOfTrimmed` in text.dfy state that padding never matters and that trimmed text is unchanged.
- Lower-casing covers A–Z and Ä/Ö/Ü only. JavaScript's full Unicode case mapping is not modelled.
- String lengths count Unicode scalar values, not UTF-16 code units, so an emoji counts once.
- Pipeline: the clock is one `now` for a whole topic, as for the cache itself.
- `getAllUniversityData` rethrowing from its outer `try`: it cannot happen once every producer has settled, so it is not modelled.
