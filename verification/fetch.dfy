/** The page fetcher's retry policy (`fetchPage`). The network is not modelled:
    each HTTP attempt is given as its outcome, in the order the attempts are
    made, and the 2000 ms pause between attempts is only counted. */
module Fetch {
  import opened Wrappers

  /** Retries granted when the caller names none. */
  const DefaultRetries: nat := 3

  /** Length of the fixed pause before each retry. */
  const RetryDelayMs: nat := 2000

  /** What one attempt produced: a response with its status and parsed page,
      or a network failure (timeout, refused connection, ...). */
  datatype Attempt<P> = Response(status: int, page: P) | NetworkError(cause: string)

  /** The error `fetchPage` throws once the budget is spent. */
  datatype FetchError = HttpStatus(status: int) | Network(cause: string)

  /** The page or the last error, how many attempts were made, how many pauses were taken. */
  datatype Fetched<P> = Fetched(result: Result<P, FetchError>, attempts: nat, waits: nat)

  /** Only status 200 is success; any other status is thrown and retried like a network error. */
  predicate Succeeded<P>(a: Attempt<P>) {
    a.Response? && a.status == 200
  }

  function ErrorOf<P>(a: Attempt<P>): FetchError {
    match a
    case Response(status, _) => HttpStatus(status)
    case NetworkError(cause) => Network(cause)
  }

  /** `fetchPage(url, retries)` over the outcomes of its successive attempts:
      the first successful attempt within `retries + 1` wins; otherwise the
      error of the last attempt is thrown. Every retry is preceded by one pause. */
  function FetchPage<P>(outcomes: seq<Attempt<P>>, retries: nat): (r: Fetched<P>)
    requires |outcomes| > retries
    ensures 1 <= r.attempts <= retries + 1 && r.waits == r.attempts - 1
    ensures r.result.Ok? <==> exists k | 0 <= k <= retries :: Succeeded(outcomes[k])
    ensures r.result.Ok? ==>
              && Succeeded(outcomes[r.attempts - 1])
              && r.result.value == outcomes[r.attempts - 1].page
              && forall k | 0 <= k < r.attempts - 1 :: !Succeeded(outcomes[k])
    ensures r.result.Err? ==>
              r.attempts == retries + 1 && r.result.error == ErrorOf(outcomes[retries])
    decreases retries
  {
    var a := outcomes[0];
    if Succeeded(a) then
      Fetched(Ok(a.page), 1, 0)
    else if retries > 0 then
      var rest := FetchPage(outcomes[1..], retries - 1);
      Fetched(rest.result, rest.attempts + 1, rest.waits + 1)
    else
      Fetched(Err(ErrorOf(a)), 1, 0)
  }

  /** Outcomes past the budget are never consulted. */
  lemma {:induction false} FetchPageIgnoresLaterOutcomes<P>(outcomes: seq<Attempt<P>>, retries: nat)
    requires |outcomes| > retries
    ensures FetchPage(outcomes, retries) == FetchPage(outcomes[..retries + 1], retries)
    decreases retries
  {
    if !Succeeded(outcomes[0]) && retries > 0 {
      FetchPageIgnoresLaterOutcomes(outcomes[1..], retries - 1);
      assert outcomes[..retries + 1][1..] == outcomes[1..][..retries];
    }
  }

  /** A larger budget never turns a success into a failure, and does not change
      which page is returned or how many attempts it took. */
  lemma {:induction false} MoreRetriesKeepSuccess<P>(outcomes: seq<Attempt<P>>, retries: nat, more: nat)
    requires retries <= more < |outcomes|
    requires FetchPage(outcomes, retries).result.Ok?
    ensures FetchPage(outcomes, more) == FetchPage(outcomes, retries)
    decreases retries
  {
    if !Succeeded(outcomes[0]) {
      MoreRetriesKeepSuccess(outcomes[1..], retries - 1, more - 1);
    }
  }

  /** With the default budget a fetch makes at most four attempts and pauses at most 6000 ms in all. */
  lemma DefaultBudget<P>(outcomes: seq<Attempt<P>>)
    requires |outcomes| > DefaultRetries
    ensures FetchPage(outcomes, DefaultRetries).attempts <= 4
    ensures FetchPage(outcomes, DefaultRetries).waits * RetryDelayMs <= 6000
  {
  }
}
