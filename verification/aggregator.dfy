/** `getAllUniversityData`: the three cached producers are awaited with
    `Promise.allSettled`, so each arrives as an independent result, and a
    rejected one is replaced by its topic's default. The ISO timestamp is a
    parameter. */
module Aggregator {
  import opened Wrappers
  import opened Records
  import opened Extractors
  import opened News

  function GetAllUniversityData<E>(
    anmeldung: Result<seq<Record>, E>,
    klausuren: Result<seq<Record>, E>,
    aktuelles: Result<seq<Record>, E>,
    lastUpdated: string): (s: Snapshot)
    ensures s.anmeldung == Some(if anmeldung.Ok? then anmeldung.value else DefaultAnmeldungTermine())
    ensures s.klausuren == Some(if klausuren.Ok? then klausuren.value else DefaultKlausurTermine())
    ensures s.aktuelles == Some(if aktuelles.Ok? then aktuelles.value else DefaultNews())
    ensures s.lastUpdated == Some(lastUpdated) && s.university == Some(UniversityName)
  {
    Snapshot(
      Some(anmeldung.GetOr(DefaultAnmeldungTermine())),
      Some(klausuren.GetOr(DefaultKlausurTermine())),
      Some(aktuelles.GetOr(DefaultNews())),
      Some(lastUpdated),
      Some(UniversityName))
  }

  /** Every topic list of the snapshot is populated. */
  predicate Populated(s: Snapshot) {
    && s.anmeldung.Some? && s.anmeldung.value != []
    && s.klausuren.Some? && s.klausuren.value != []
    && s.aktuelles.Some? && s.aktuelles.value != []
  }

  /** Since no producer returns an empty list and every rejection is replaced by
      a default, aggregation always yields a fully populated snapshot. */
  lemma AggregateIsPopulated<E>(
    anmeldung: Result<seq<Record>, E>,
    klausuren: Result<seq<Record>, E>,
    aktuelles: Result<seq<Record>, E>,
    lastUpdated: string)
    requires anmeldung.Ok? ==> anmeldung.value != []
    requires klausuren.Ok? ==> klausuren.value != []
    requires aktuelles.Ok? ==> aktuelles.value != []
    ensures Populated(GetAllUniversityData(anmeldung, klausuren, aktuelles, lastUpdated))
  {
  }

  /** Each topic's field depends on that topic's outcome alone: whichever
      topics fail, a topic that was produced keeps exactly its list, and one
      that failed gets its own default. */
  lemma PartialFailure<E>(
    anmeldung: Result<seq<Record>, E>, klausuren: Result<seq<Record>, E>, aktuelles: Result<seq<Record>, E>,
    anmeldung': Result<seq<Record>, E>, klausuren': Result<seq<Record>, E>, aktuelles': Result<seq<Record>, E>,
    t: string)
    ensures var s := GetAllUniversityData(anmeldung, klausuren, aktuelles, t);
            var s' := GetAllUniversityData(anmeldung', klausuren', aktuelles', t);
            && (anmeldung == anmeldung' ==> s.anmeldung == s'.anmeldung)
            && (klausuren == klausuren' ==> s.klausuren == s'.klausuren)
            && (aktuelles == aktuelles' ==> s.aktuelles == s'.aktuelles)
    ensures var s := GetAllUniversityData(anmeldung, klausuren, aktuelles, t);
            && (anmeldung.Err? ==> s.anmeldung == Some(DefaultAnmeldungTermine()))
            && (klausuren.Err? ==> s.klausuren == Some(DefaultKlausurTermine()))
            && (aktuelles.Err? ==> s.aktuelles == Some(DefaultNews()))
  {
  }
}
