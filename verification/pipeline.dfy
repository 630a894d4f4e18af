/** The producers wired into the cache, as the scraper runs them. Every
    producer catches its own errors and hands back a default instead, so the
    cache only ever sees a successful outcome: its stale-data and error
    branches never run, the aggregator never substitutes a default, and a
    failed fetch is cached for thirty minutes like real data. */
module Pipeline {
  import opened Wrappers
  import opened Records
  import opened TtlCache
  import opened Fetch
  import opened Extractors
  import opened News
  import opened Aggregator
  import opened Structured

  const InformatikPruefungenKey: string := "informatik_pruefungen"
  const InformatikAnmeldungenKey: string := "informatik_anmeldungen"
  const AnmeldungKey: string := "anmeldung"
  const KlausurenKey: string := "klausuren"
  const AktuellesKey: string := "aktuelles"

  type RecordCache = Cache<seq<Record>>

  /** A producer never throws: whatever it returns reaches the cache as a
      success, so a cache access over it always succeeds and, once the entry
      has expired, always stores what the producer returned. */
  lemma ProducedIsStored(cache: RecordCache, key: string, now: int, produced: seq<Record>)
    ensures GetCachedOrFetch<seq<Record>, FetchError>(cache, key, now, Ok(produced)).result.Ok?
    ensures !IsCacheValid(cache, key, now) ==>
              var s := GetCachedOrFetch<seq<Record>, FetchError>(cache, key, now, Ok(produced));
              s.result == Ok(produced) && s.cache == cache[key := Entry(produced, now)]
  {
  }

  /** The exam topic at time `now`: the Informatik exam access nested inside
      the exam access, each over its producer's result. The nested access only
      happens when the exam entry has expired. */
  function KlausurenStep(cache: RecordCache, now: int, informatikPage: Page, page: Page): (s: Step<seq<Record>, FetchError>)
    ensures s.result.Ok?
    ensures IsCacheValid(cache, KlausurenKey, now) ==>
              s.result == Ok(cache[KlausurenKey].data) && s.cache == cache
  {
    if IsCacheValid(cache, KlausurenKey, now) then
      Step(Ok(cache[KlausurenKey].data), cache, false)
    else
      var inner := GetCachedOrFetch<seq<Record>, FetchError>(
        cache, InformatikPruefungenKey, now, Ok(ScrapeInformatikPruefungen(informatikPage)));
      GetCachedOrFetch(inner.cache, KlausurenKey, now, Ok(ScrapeKlausurTermine(inner.result, page)))
  }

  /** A failed fetch of the Informatik page, once both entries have expired,
      replaces both of them with the Informatik exam default, stamped now,
      however good the data they held: the exam topic then serves the default
      for the next thirty minutes. */
  lemma KlausurenFailureCachesDefault(cache: RecordCache, now: int, e: FetchError, page: Page)
    requires !IsCacheValid(cache, InformatikPruefungenKey, now)
    requires !IsCacheValid(cache, KlausurenKey, now)
    ensures var s := KlausurenStep(cache, now, Err(e), page);
            && s.result == Ok(DefaultInformatikPruefungen())
            && s.cache == cache[InformatikPruefungenKey := Entry(DefaultInformatikPruefungen(), now)]
                               [KlausurenKey := Entry(DefaultInformatikPruefungen(), now)]
  {
    var inner := GetCachedOrFetch<seq<Record>, FetchError>(
      cache, InformatikPruefungenKey, now, Ok(ScrapeInformatikPruefungen(Err(e))));
    assert inner.result == Ok(DefaultInformatikPruefungen());
    assert !IsCacheValid(inner.cache, KlausurenKey, now);
  }

  /** The registration topic at time `now`: the Informatik registration access
      nested inside the registration access, which only happens when the
      registration entry has expired. */
  function AnmeldungStep(cache: RecordCache, now: int, pages: seq<Page>): (s: Step<seq<Record>, FetchError>)
    ensures s.result.Ok?
    ensures IsCacheValid(cache, AnmeldungKey, now) ==>
              s.result == Ok(cache[AnmeldungKey].data) && s.cache == cache
  {
    if IsCacheValid(cache, AnmeldungKey, now) then
      Step(Ok(cache[AnmeldungKey].data), cache, false)
    else
      var inner := GetCachedOrFetch<seq<Record>, FetchError>(
        cache, InformatikAnmeldungenKey, now, Ok(ScrapeInformatikAnmeldungen()));
      GetCachedOrFetch(inner.cache, AnmeldungKey, now, Ok(ScrapeAnmeldungTermine(inner.result, pages)))
  }

  /** Once both entries have expired, the registration topic serves and caches
      the structured registrations, whatever the general pages hold. */
  lemma AnmeldungServesStructured(cache: RecordCache, now: int, pages: seq<Page>)
    requires !IsCacheValid(cache, InformatikAnmeldungenKey, now)
    requires !IsCacheValid(cache, AnmeldungKey, now)
    ensures var s := AnmeldungStep(cache, now, pages);
            && s.result == Ok(Expand(Table, Registrations))
            && s.cache == cache[InformatikAnmeldungenKey := Entry(Expand(Table, Registrations), now)]
                               [AnmeldungKey := Entry(Expand(Table, Registrations), now)]
  {
    var inner := GetCachedOrFetch<seq<Record>, FetchError>(
      cache, InformatikAnmeldungenKey, now, Ok(ScrapeInformatikAnmeldungen()));
    assert inner.result == Ok(Expand(Table, Registrations));
    assert !IsCacheValid(inner.cache, AnmeldungKey, now);
  }

  /** A failed news fetch, once the entry has expired, replaces it with the
      news default, stamped now, however good the data it held. */
  lemma AktuellesFailureCachesDefault<P>(cache: RecordCache, now: int, e: FetchError, fallback: Result<P, FetchError>)
    requires !IsCacheValid(cache, AktuellesKey, now)
    ensures var s := GetCachedOrFetch<seq<Record>, FetchError>(cache, AktuellesKey, now, Ok(ScrapeAktuelles(Err(e), fallback)));
            s.result == Ok(DefaultNews()) && s.cache == cache[AktuellesKey := Entry(DefaultNews(), now)]
  {
  }

  /** Since all three topics come out of the cache as successes, the aggregate
      holds exactly what the cache returned and never a substituted default. */
  lemma AggregateNeverSubstitutes(
    anmeldung: Step<seq<Record>, FetchError>,
    klausuren: Step<seq<Record>, FetchError>,
    aktuelles: Step<seq<Record>, FetchError>,
    lastUpdated: string)
    requires anmeldung.result.Ok? && klausuren.result.Ok? && aktuelles.result.Ok?
    ensures var s := GetAllUniversityData(anmeldung.result, klausuren.result, aktuelles.result, lastUpdated);
            && s.anmeldung == Some(anmeldung.result.value)
            && s.klausuren == Some(klausuren.result.value)
            && s.aktuelles == Some(aktuelles.result.value)
  {
  }
}
