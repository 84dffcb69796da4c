/** The network request layer (checkit/network.py): the retry-with-backoff
    loop of `timed_request` and the status-code classification of `net`,
    including its bounded recursion on rate limiting. The HTTP calls are
    oracles indexed by attempt (or recursion depth); pauses are recorded as
    data instead of being slept. */
module Network {
  import opened Errors

  /** How deeply `net` may call itself after a rate-limit reply. */
  const MaxRecursiveCalls: nat := 10
  /** Consecutive failures before `timed_request` backs off. */
  const MaxFailures: nat := 3
  /** Backoff rounds before `timed_request` gives up. */
  const MaxRetries: nat := 5
  /** Attempts `timed_request` makes before it gives up: 3 per round, 6 rounds. */
  const MaxAttempts: nat := MaxFailures * (MaxRetries + 1)

  // ---------------------------------------------------------------------------
  // timed_request

  /** What one HTTP call did: it delivered a response or raised an exception. */
  datatype Attempt<R, X> = Delivered(response: R) | Raised(exception: X)

  /** How `timed_request` ends: it returns a response or re-raises an exception. */
  datatype Outcome<R, X> = Returned(response: R) | Reraised(exception: X)

  /** The pause after backoff round r (1-based) is 10 * r * r seconds. */
  function BackoffPauses(rounds: nat): (p: seq<nat>)
    ensures |p| == rounds
    ensures forall r :: 0 <= r < rounds ==> p[r] == 10 * (r + 1) * (r + 1)
  {
    if rounds == 0 then [] else BackoffPauses(rounds - 1) + [10 * rounds * rounds]
  }

  /** The five backoff pauses are 10, 40, 90, 160 and 250 seconds. */
  lemma BackoffSchedule()
    ensures BackoffPauses(MaxRetries) == [10, 40, 90, 160, 250]
  {
  }

  /** `timed_request`: call `attempt(0)`, `attempt(1)`, ... until one delivers.
      After every third consecutive failure it pauses (recorded in `pauses`)
      and resets its failure count; after the fifth round it re-raises the
      FIRST exception it saw. `tries` is the number of calls made. */
  method TimedRequest<R, X>(attempt: nat -> Attempt<R, X>)
    returns (outcome: Outcome<R, X>, pauses: seq<nat>, tries: nat)
    ensures 1 <= tries <= MaxAttempts
    ensures forall j :: 0 <= j < tries - 1 ==> attempt(j).Raised?
    ensures outcome.Returned? ==>
              attempt(tries - 1) == Delivered(outcome.response)
              && pauses == BackoffPauses((tries - 1) / MaxFailures)
    ensures outcome.Reraised? ==>
              tries == MaxAttempts && attempt(tries - 1).Raised?
              && outcome.exception == attempt(0).exception
              && pauses == BackoffPauses(MaxRetries)
  {
    var failures: nat := 0;
    var retries: nat := 0;
    var error: Option<X> := None;
    pauses, tries := [], 0;
    while failures < MaxFailures
      invariant failures <= MaxFailures && retries <= MaxRetries
      invariant failures == MaxFailures ==> retries == MaxRetries
      invariant tries == MaxFailures * retries + failures
      invariant forall j :: 0 <= j < tries ==> attempt(j).Raised?
      invariant error == if tries == 0 then None else Some(attempt(0).exception)
      invariant pauses == BackoffPauses(retries)
      decreases MaxAttempts - tries
    {
      var a := attempt(tries);
      tries := tries + 1;
      if a.Delivered? {
        return Returned(a.response), pauses, tries;
      }
      failures := failures + 1;
      if error.None? {
        error := Some(a.exception);
      }
      if failures >= MaxFailures && retries < MaxRetries {
        retries := retries + 1;
        failures := 0;
        pauses := pauses + [10 * retries * retries];
      }
    }
    // The source raises inside the loop once the last round has failed; here
    // the loop ends with failures == MaxFailures and the raise follows it.
    outcome := Reraised(error.value);
  }

  // ---------------------------------------------------------------------------
  // net: interpreting the status code

  /** What one status code means to `net`. */
  datatype Verdict = Fine | Fails(kind: ErrorKind) | RateLimited

  /** The status-code branch of `net` for one response. With `polling`, 404 and
      410 are not singled out and fall through to the final catch-all. */
  function Classify(code: int, polling: bool): (v: Verdict)
    ensures v == Fine <==> 200 <= code < 400
    ensures v == RateLimited <==> code == 429
    ensures v == Fails(NoContent) <==> code in {404, 410} && !polling
    ensures polling && code in {404, 410} ==> v == Fails(NetworkFailure)
  {
    if code == 400 then Fails(RequestError)
    else if code in {401, 402, 403, 407, 451, 511} then Fails(AuthFailure)
    else if code in {404, 410} && !polling then Fails(NoContent)
    else if code in {405, 406, 409, 411, 412, 414, 417, 428, 431, 505, 510} then Fails(InternalError)
    else if code in {415, 416} then Fails(ServiceFailure)
    else if code == 429 then RateLimited
    else if code == 503 then Fails(ServiceFailure)
    else if code in {500, 501, 502, 506, 507, 508} then Fails(ServiceFailure)
    else if !(200 <= code < 400) then Fails(NetworkFailure)
    else Fine
  }

  /** Each error kind comes from exactly the codes listed for it. */
  lemma ClassifyTable(code: int, polling: bool)
    ensures Classify(code, polling) == Fails(RequestError) <==> code == 400
    ensures Classify(code, polling) == Fails(AuthFailure) <==> code in {401, 402, 403, 407, 451, 511}
    ensures Classify(code, polling) == Fails(InternalError)
            <==> code in {405, 406, 409, 411, 412, 414, 417, 428, 431, 505, 510}
    ensures Classify(code, polling) == Fails(ServiceFailure)
            <==> code in {415, 416, 503, 500, 501, 502, 506, 507, 508}
    ensures Classify(code, polling) == Fails(NetworkFailure)
            <==> (code < 200 || code >= 400) && code !in KnownCodes && (polling || code !in {404, 410})
  {
  }

  /** The codes `net` names explicitly (besides 404 and 410). */
  const KnownCodes: set<int> := {400, 401, 402, 403, 405, 406, 407, 409, 411, 412, 414, 415, 416,
                                 417, 428, 429, 431, 451, 500, 501, 502, 503, 505, 506, 507, 508,
                                 510, 511}

  /** What `net` hands back: the status of the response it kept, its error
      (None for success) and the rate-limit pauses it made on the way. */
  datatype NetResult = NetResult(status: int, error: Option<ErrorKind>, pauses: seq<nat>)

  /** The pauses made by the rate-limit recursion from depth `from` up to
      depth `to`: 5 * (depth + 1) seconds each. */
  function RateLimitPauses(from: nat, to: nat): (p: seq<nat>)
    requires from <= to
    ensures |p| == to - from
    ensures forall i :: 0 <= i < |p| ==> p[i] == 5 * (from + i + 1)
  {
    seq(to - from, i => 5 * (from + i + 1))
  }

  /** `net` once the request returned a response. `status(d)` is the status
      code the request gets at recursion depth d (each 429 makes `net` call
      itself again, up to MaxRecursiveCalls times). */
  function Net(status: nat -> int, polling: bool, recursing: nat): (r: NetResult)
    decreases MaxRecursiveCalls - recursing
    ensures recursing <= MaxRecursiveCalls ==> |r.pauses| <= MaxRecursiveCalls - recursing
    ensures r.error == None <==> 200 <= r.status < 400
  {
    match Classify(status(recursing), polling)
    case Fine => NetResult(status(recursing), None, [])
    case Fails(kind) => NetResult(status(recursing), Some(kind), [])
    case RateLimited =>
      if recursing < MaxRecursiveCalls then
        var rest := Net(status, polling, recursing + 1);
        NetResult(rest.status, rest.error, [5 * (recursing + 1)] + rest.pauses)
      else
        NetResult(status(recursing), Some(RateLimitExceeded), [])
  }

  /** The error `net` reports for a final (non-429) verdict. */
  function ErrorOf(v: Verdict): Option<ErrorKind>
  {
    match v
    case Fine => None
    case Fails(kind) => Some(kind)
    case RateLimited => Some(RateLimitExceeded)
  }

  /** If the first status other than 429 from depth `recursing` on arrives at
      depth k <= MaxRecursiveCalls, `net` reports that status's verdict after
      pausing 5, 10, ... seconds once per 429. */
  lemma {:induction false} NetSettlesAtFirstNon429(status: nat -> int, polling: bool, recursing: nat, k: nat)
    requires recursing <= k <= MaxRecursiveCalls
    requires status(k) != 429
    requires forall d :: recursing <= d < k ==> status(d) == 429
    ensures Net(status, polling, recursing)
            == NetResult(status(k), ErrorOf(Classify(status(k), polling)), RateLimitPauses(recursing, k))
    decreases k - recursing
  {
    if recursing < k {
      NetSettlesAtFirstNon429(status, polling, recursing + 1, k);
      assert [5 * (recursing + 1)] + RateLimitPauses(recursing + 1, k) == RateLimitPauses(recursing, k);
    }
  }

  /** If every reply up to depth MaxRecursiveCalls is 429, `net` gives up with
      RateLimitExceeded after one pause per recursion. */
  lemma {:induction false} NetGivesUpOnRateLimit(status: nat -> int, polling: bool, recursing: nat)
    requires recursing <= MaxRecursiveCalls
    requires forall d :: recursing <= d <= MaxRecursiveCalls ==> status(d) == 429
    ensures Net(status, polling, recursing)
            == NetResult(429, Some(RateLimitExceeded), RateLimitPauses(recursing, MaxRecursiveCalls))
    decreases MaxRecursiveCalls - recursing
  {
    if recursing < MaxRecursiveCalls {
      NetGivesUpOnRateLimit(status, polling, recursing + 1);
      assert [5 * (recursing + 1)] + RateLimitPauses(recursing + 1, MaxRecursiveCalls)
          == RateLimitPauses(recursing, MaxRecursiveCalls);
    }
  }

  /** `net` succeeds exactly when the first non-429 reply is in [200, 400). */
  lemma NetSucceedsIff(status: nat -> int, polling: bool, k: nat)
    requires k <= MaxRecursiveCalls && status(k) != 429
    requires forall d :: 0 <= d < k ==> status(d) == 429
    ensures Net(status, polling, 0).error == None <==> 200 <= status(k) < 400
  {
    NetSettlesAtFirstNon429(status, polling, 0, k);
  }
}
