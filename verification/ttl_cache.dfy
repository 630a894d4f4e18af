/** The scraper's cache (`isCacheValid`, `getCachedOrFetch`): a map from topic
    key to the data last produced for it and the time it was produced. A call
    takes the current time and the outcome the producer would deliver; the
    clock and the asynchronous producer themselves are not modelled. */
module TtlCache {
  import opened Wrappers

  /** Thirty minutes, in milliseconds. */
  const CacheExpiryMs: int := 30 * 60 * 1000

  datatype Entry<T> = Entry(data: T, timestamp: int)

  type Cache<T> = map<string, Entry<T>>

  /** `isCacheValid(key)`: an entry exists and is strictly younger than the expiry. */
  predicate IsCacheValid<T>(cache: Cache<T>, key: string, now: int) {
    key in cache && now - cache[key].timestamp < CacheExpiryMs
  }

  /** What one `getCachedOrFetch` call returns (data or the producer's error),
      the cache afterwards, and whether the producer was invoked. */
  datatype Step<T, E> = Step(result: Result<T, E>, cache: Cache<T>, invoked: bool)

  /** `getCachedOrFetch(key, producer)` at time `now`, where `outcome` is what the
      producer delivers if it is invoked. */
  function GetCachedOrFetch<T, E>(cache: Cache<T>, key: string, now: int, outcome: Result<T, E>): (s: Step<T, E>)
    // a valid entry is served without invoking the producer
    ensures IsCacheValid(cache, key, now) ==>
              !s.invoked && s.result == Ok(cache[key].data) && s.cache == cache
    ensures !IsCacheValid(cache, key, now) ==> s.invoked
    // a fresh success overwrites the entry, stamped with the current time
    ensures !IsCacheValid(cache, key, now) && outcome.Ok? ==>
              s.result == outcome && s.cache == cache[key := Entry(outcome.value, now)]
    // a failure falls back to the entry, however old, and changes nothing
    ensures !IsCacheValid(cache, key, now) && outcome.Err? && key in cache ==>
              s.result == Ok(cache[key].data) && s.cache == cache
    // a failure with nothing cached is propagated and changes nothing
    ensures !IsCacheValid(cache, key, now) && outcome.Err? && key !in cache ==>
              s.result == outcome && s.cache == cache
    // no entry is ever removed, and no other key is touched
    ensures cache.Keys <= s.cache.Keys <= cache.Keys + {key}
    ensures forall k | k in cache && k != key :: s.cache[k] == cache[k]
  {
    if IsCacheValid(cache, key, now) then
      Step(Ok(cache[key].data), cache, false)
    else
      match outcome
      case Ok(data) => Step(Ok(data), cache[key := Entry(data, now)], true)
      case Err(e) =>
        if key in cache then Step(Ok(cache[key].data), cache, true)
        else Step(Err(e), cache, true)
  }

  /** An entry stored at `t` is served up to, but not including, `t` plus thirty minutes. */
  lemma ValidityWindow<T>(cache: Cache<T>, key: string, now: int)
    requires key in cache
    ensures IsCacheValid(cache, key, now) <==> now < cache[key].timestamp + 1800000
  {
  }

  /** After the producer succeeded, a second call for the same key within the
      expiry window does not invoke the producer and returns the same data. */
  lemma SecondCallWithinTtl<T, E>(cache: Cache<T>, key: string, t1: int, o1: Result<T, E>, t2: int, o2: Result<T, E>)
    requires GetCachedOrFetch(cache, key, t1, o1).invoked && o1.Ok?
    requires t1 <= t2 < t1 + CacheExpiryMs
    ensures var s2 := GetCachedOrFetch(GetCachedOrFetch(cache, key, t1, o1).cache, key, t2, o2);
            !s2.invoked && s2.result == o1
  {
  }

  /** After the producer succeeded once, a later failure, at any time, still
      yields the earlier data rather than the error. */
  lemma StaleFallback<T, E>(cache: Cache<T>, key: string, t1: int, o1: Result<T, E>, t2: int, o2: Result<T, E>)
    requires GetCachedOrFetch(cache, key, t1, o1).invoked && o1.Ok?
    requires o2.Err?
    ensures var s1 := GetCachedOrFetch(cache, key, t1, o1);
            var s2 := GetCachedOrFetch(s1.cache, key, t2, o2);
            s2.result == o1 && s2.cache == s1.cache
  {
  }

  /** One cache access in a sequence of accesses. */
  datatype Call<T, E> = Call(key: string, now: int, outcome: Result<T, E>)

  /** The cache after a sequence of accesses. */
  function Run<T, E>(cache: Cache<T>, calls: seq<Call<T, E>>): Cache<T>
    decreases |calls|
  {
    if |calls| == 0 then cache
    else Run(GetCachedOrFetch(cache, calls[0].key, calls[0].now, calls[0].outcome).cache, calls[1..])
  }

  /** Entry `e` for `key` is what call `i` stored: its producer succeeded with
      `e.data` at time `e.timestamp`. */
  ghost predicate StoredBy<T, E>(calls: seq<Call<T, E>>, i: int, key: string, e: Entry<T>) {
    0 <= i < |calls| && calls[i].key == key && calls[i].outcome == Ok(e.data) && calls[i].now == e.timestamp
  }

  /** Over any sequence of accesses no key is forgotten, and every entry is either
      untouched from the start or was stored by one of the calls: the cache never
      invents data nor re-stamps old data. */
  lemma {:induction false} RunProvenance<T, E>(cache: Cache<T>, calls: seq<Call<T, E>>)
    ensures cache.Keys <= Run(cache, calls).Keys
    ensures forall k | k in Run(cache, calls) ::
              (k in cache && Run(cache, calls)[k] == cache[k]) ||
              exists i :: StoredBy(calls, i, k, Run(cache, calls)[k])
    decreases |calls|
  {
    if |calls| > 0 {
      var c := calls[0];
      var mid := GetCachedOrFetch(cache, c.key, c.now, c.outcome).cache;
      var rest := calls[1..];
      RunProvenance(mid, rest);
      var final := Run(cache, calls);
      assert final == Run(mid, rest);
      forall k | k in final
        ensures (k in cache && final[k] == cache[k]) || exists i :: StoredBy(calls, i, k, final[k])
      {
        if exists i :: StoredBy(rest, i, k, final[k]) {
          var i :| StoredBy(rest, i, k, final[k]);
          assert StoredBy(calls, i + 1, k, final[k]);
        } else if !(k in cache && mid[k] == cache[k]) {
          assert StoredBy(calls, 0, k, final[k]);
        }
      }
    }
  }
}
