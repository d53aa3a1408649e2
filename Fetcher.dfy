/**
 * `safe_get`: one HTTP retrieval with bounded retries, exponential backoff and
 * rate-limit handling, driven by a scripted sequence of transport outcomes.
 */
module Fetcher {
  import opened Wrappers
  import opened Text

  /** What one `session.get` produced: a `RequestException`, or a response. */
  datatype Outcome =
    | TransportFailure
    | Response(status: int, text: string, retryAfter: Option<string>)

  /** The `RequestException` that `safe_get` re-raises. */
  datatype Cause = Transport | HttpStatus(status: int)

  datatype FetchError =
    | RetryAfterNotInteger      // `int(Retry-After)` raised ValueError
    | NegativeDelay             // `time.sleep` of a negative Retry-After raised ValueError
    | EmptyPayload              // a 200 whose text is blank
    | RequestFailed(cause: Cause)  // a caught RequestException re-raised on the last attempt
    | RetriesExhausted          // the RuntimeError after the loop
    | ScriptEnded               // the scripted outcomes ran out (model only)

  datatype Fetched = Returned(body: string) | Raised(error: FetchError)

  /** A `time.sleep`: `Fixed(n)` sleeps n seconds, `Backoff(k)` sleeps BACKOFF_FACTOR ** k. */
  datatype Sleep = Fixed(seconds: nat) | Backoff(exponent: nat)

  /** How a retrieval ended, the sleeps it made in order, and how many outcomes it consumed. */
  datatype Trace = Trace(result: Fetched, sleeps: seq<Sleep>, gets: nat)

  /** What one loop iteration decides: stop with a result, or go round again. */
  datatype Step = Stop(result: Fetched) | Again(delay: Option<Sleep>, attempt: nat)

  const DefaultRetryAfter: string := "10"

  predicate IsServerError(status: int) {
    500 <= status < 600
  }

  /** `requests.Response.raise_for_status` raises `HTTPError` exactly for 4xx and 5xx. */
  predicate RaisesForStatus(status: int) {
    400 <= status < 600
  }

  /** The outcomes that reach the `except requests.RequestException` handler. */
  predicate IsCaught(o: Outcome) {
    o.TransportFailure?
    || (o.status != 429 && o.status != 200 && !IsServerError(o.status) && RaisesForStatus(o.status))
  }

  /** The outcomes whose handling increments `attempt` (or ends the retrieval). */
  predicate CountsAttempt(o: Outcome) {
    o.TransportFailure? || RaisesForStatus(o.status)
  }

  /** The `except` handler: count the failure, re-raise on the last attempt, otherwise back off. */
  function Caught(cause: Cause, attempt: nat, maxRetries: int): Step {
    if attempt + 1 >= maxRetries then Stop(Raised(RequestFailed(cause)))
    else Again(Some(Backoff(attempt + 1)), attempt + 1)
  }

  /** One iteration of the `safe_get` loop on outcome `o`. */
  function Decide(o: Outcome, attempt: nat, maxRetries: int): Step {
    match o
    case TransportFailure => Caught(Transport, attempt, maxRetries)
    case Response(status, text, retryAfter) =>
      if status == 429 then
        match ParseInt(retryAfter.GetOr(DefaultRetryAfter))
        case None => Stop(Raised(RetryAfterNotInteger))
        case Some(n) => if n < 0 then Stop(Raised(NegativeDelay)) else Again(Some(Fixed(n)), attempt + 1)
      else if status == 200 then
        if IsBlank(text) then Stop(Raised(EmptyPayload)) else Stop(Returned(text))
      else if IsServerError(status) then Again(Some(Backoff(attempt + 1)), attempt + 1)
      else if RaisesForStatus(status) then Caught(HttpStatus(status), attempt, maxRetries)
      else Again(None, attempt)
  }

  function DelayList(d: Option<Sleep>): seq<Sleep> {
    match d
    case None => []
    case Some(s) => [s]
  }

  /** The rest of a retrieval, from outcome `i` on, with `attempt` failures counted so far. */
  function RunFrom(script: seq<Outcome>, i: nat, attempt: nat, maxRetries: int): (t: Trace)
    requires i <= |script|
    ensures i <= t.gets <= |script|
    ensures t.gets == i <==> attempt >= maxRetries || i == |script|
    decreases |script| - i
  {
    if attempt >= maxRetries then Trace(Raised(RetriesExhausted), [], i)
    else if i == |script| then Trace(Raised(ScriptEnded), [], i)
    else
      match Decide(script[i], attempt, maxRetries)
      case Stop(r) => Trace(r, [], i + 1)
      case Again(d, a) =>
        var t := RunFrom(script, i + 1, a, maxRetries);
        Trace(t.result, DelayList(d) + t.sleeps, t.gets)
  }

  /** The whole of `safe_get` on the scripted outcomes. */
  function Fetch(script: seq<Outcome>, maxRetries: int): Trace {
    RunFrom(script, 0, 0, maxRetries)
  }

  function Prepend(sleeps: seq<Sleep>, t: Trace): Trace {
    Trace(t.result, sleeps + t.sleeps, t.gets)
  }

  lemma PrependTwice(a: seq<Sleep>, b: seq<Sleep>, t: Trace)
    ensures Prepend(a, Prepend(b, t)) == Prepend(a + b, t)
  {
    assert a + (b + t.sleeps) == (a + b) + t.sleeps;
  }

  /** One unfolding of `RunFrom` while the loop condition holds. */
  lemma RunFromStep(script: seq<Outcome>, i: nat, attempt: nat, maxRetries: int)
    requires i < |script| && attempt < maxRetries
    ensures RunFrom(script, i, attempt, maxRetries) ==
      match Decide(script[i], attempt, maxRetries)
      case Stop(r) => Trace(r, [], i + 1)
      case Again(d, a) => Prepend(DelayList(d), RunFrom(script, i + 1, a, maxRetries))
  {
  }

  /**
   * `safe_get(url)`: each loop iteration consumes the next scripted outcome of
   * `session.get`; every `time.sleep` is appended to `sleeps`.
   */
  method SafeGet(script: seq<Outcome>, maxRetries: int) returns (result: Fetched, sleeps: seq<Sleep>, gets: nat)
    ensures Trace(result, sleeps, gets) == Fetch(script, maxRetries)
  {
    var attempt: nat := 0;
    sleeps, gets := [], 0;
    while attempt < maxRetries
      invariant gets <= |script|
      invariant Fetch(script, maxRetries) == Prepend(sleeps, RunFrom(script, gets, attempt, maxRetries))
      decreases |script| - gets
    {
      if gets == |script| {
        result := Raised(ScriptEnded);
        return;
      }
      var o := script[gets];
      RunFromStep(script, gets, attempt, maxRetries);
      ghost var step := Decide(o, attempt, maxRetries);
      gets := gets + 1;
      var caught: Option<Cause> := None;
      match o {
        case TransportFailure =>
          assert step == Caught(Transport, attempt, maxRetries);
          caught := Some(Transport);
        case Response(status, text, retryAfter) =>
          if status == 429 {
            var retry := ParseInt(retryAfter.GetOr(DefaultRetryAfter));
            if retry.None? {
              assert step == Stop(Raised(RetryAfterNotInteger));
              result := Raised(RetryAfterNotInteger);
              return;
            }
            if retry.value < 0 {
              assert step == Stop(Raised(NegativeDelay));
              result := Raised(NegativeDelay);
              return;
            }
            assert step == Again(Some(Fixed(retry.value)), attempt + 1);
            PrependTwice(sleeps, [Fixed(retry.value)], RunFrom(script, gets, attempt + 1, maxRetries));
            sleeps := sleeps + [Fixed(retry.value)];
            attempt := attempt + 1;
            continue;
          }
          if status == 200 {
            if IsBlank(text) {
              assert step == Stop(Raised(EmptyPayload));
              result := Raised(EmptyPayload);
              return;
            }
            assert step == Stop(Returned(text));
            result := Returned(text);
            return;
          } else if IsServerError(status) {
            assert step == Again(Some(Backoff(attempt + 1)), attempt + 1);
            PrependTwice(sleeps, [Backoff(attempt + 1)], RunFrom(script, gets, attempt + 1, maxRetries));
            attempt := attempt + 1;
            sleeps := sleeps + [Backoff(attempt)];
            continue;
          } else if RaisesForStatus(status) {
            assert step == Caught(HttpStatus(status), attempt, maxRetries);
            caught := Some(HttpStatus(status));
          } else {
            assert step == Again(None, attempt);
          }
      }
      if caught.Some? {
        attempt := attempt + 1;
        if attempt >= maxRetries {
          result := Raised(RequestFailed(caught.value));
          return;
        }
        PrependTwice(sleeps, [Backoff(attempt)], RunFrom(script, gets, attempt, maxRetries));
        sleeps := sleeps + [Backoff(attempt)];
      } else {
        assert step == Again(None, attempt);
        PrependTwice(sleeps, [], RunFrom(script, gets, attempt, maxRetries));
        assert sleeps + [] == sleeps;
      }
    }
    result := Raised(RetriesExhausted);
  }

  // ---------------------------------------------------------------------------
  // One iteration

  /**
   * `attempt` never decreases, and rises by exactly one on a 429, a 4xx/5xx or a
   * transport failure; going round again sleeps exactly when it counts, a fixed
   * delay after a 429 and BACKOFF_FACTOR ** (the new attempt) otherwise; a
   * caught exception backs off only while `attempt < MAX_RETRIES`; the statuses
   * outside 200, 429 and 400-599 go round again with no sleep and no count.
   */
  lemma DecideAttempt(o: Outcome, attempt: nat, maxRetries: int)
    ensures Decide(o, attempt, maxRetries).Again? ==>
      Decide(o, attempt, maxRetries).attempt == if CountsAttempt(o) then attempt + 1 else attempt
    ensures Decide(o, attempt, maxRetries).Again? && Decide(o, attempt, maxRetries).delay.Some? ==>
      Decide(o, attempt, maxRetries).delay.value.Backoff? ==> Decide(o, attempt, maxRetries).delay.value.exponent == attempt + 1
    ensures Decide(o, attempt, maxRetries).Again? ==>
      (Decide(o, attempt, maxRetries).delay.Some? <==> CountsAttempt(o))
    ensures Decide(o, attempt, maxRetries).Again? && o.Response? && o.status == 429 ==>
      Decide(o, attempt, maxRetries).delay.Some? && Decide(o, attempt, maxRetries).delay.value.Fixed?
    ensures Decide(o, attempt, maxRetries).Again? && CountsAttempt(o) && !(o.Response? && o.status == 429) ==>
      Decide(o, attempt, maxRetries).delay == Some(Backoff(attempt + 1))
    ensures IsCaught(o) && Decide(o, attempt, maxRetries).Again? ==> attempt + 1 < maxRetries
    ensures IsCaught(o) ==> (Decide(o, attempt, maxRetries).Stop? <==> attempt + 1 >= maxRetries)
    ensures Decide(o, attempt, maxRetries) == Again(None, attempt) <==>
      o.Response? && o.status != 200 && !RaisesForStatus(o.status)
  {
  }

  /** A 429 with `Retry-After: n` sleeps exactly n seconds, with no backoff, and counts one attempt. */
  lemma RateLimitSleepsAdvertisedDelay(text: string, n: nat, attempt: nat, maxRetries: int)
    ensures Decide(Response(429, text, Some(NatToString(n))), attempt, maxRetries) == Again(Some(Fixed(n)), attempt + 1)
  {
    ParseIntOfNatToString(n);
  }

  /** A 429 without `Retry-After` sleeps 10 seconds. */
  lemma RateLimitDefaultDelay(text: string, attempt: nat, maxRetries: int)
    ensures Decide(Response(429, text, None), attempt, maxRetries) == Again(Some(Fixed(10)), attempt + 1)
  {
    ParseIntOfNatToString(10);
    assert NatToString(10) == DefaultRetryAfter;
  }

  /** A 429 whose `Retry-After` is not an integer raises ValueError, which escapes the retry loop. */
  lemma RateLimitBadHeader(text: string, header: string, attempt: nat, maxRetries: int)
    requires ParseInt(header) == None
    ensures Decide(Response(429, text, Some(header)), attempt, maxRetries) == Stop(Raised(RetryAfterNotInteger))
  {
  }

  // ---------------------------------------------------------------------------
  // The whole retrieval

  /** With MAX_RETRIES <= 0 no GET is made and RuntimeError is raised. */
  lemma NoRetriesNoRequest(script: seq<Outcome>, maxRetries: int)
    requires maxRetries <= 0
    ensures Fetch(script, maxRetries) == Trace(Raised(RetriesExhausted), [], 0)
  {
  }

  /** A 200 with a non-blank body returns it at once, with no sleep. */
  lemma OkReturnsAtOnce(body: string, header: Option<string>, rest: seq<Outcome>, maxRetries: int)
    requires maxRetries > 0 && !IsBlank(body)
    ensures Fetch([Response(200, body, header)] + rest, maxRetries) == Trace(Returned(body), [], 1)
  {
  }

  /** A 200 with a blank body raises ValueError at once: no retry, no sleep. */
  lemma EmptyPayloadAtOnce(body: string, header: Option<string>, rest: seq<Outcome>, maxRetries: int)
    requires maxRetries > 0 && IsBlank(body)
    ensures Fetch([Response(200, body, header)] + rest, maxRetries) == Trace(Raised(EmptyPayload), [], 1)
  {
  }

  predicate AllCountAttempt(script: seq<Outcome>, i: nat) {
    forall j :: i <= j < |script| ==> CountsAttempt(script[j])
  }

  /**
   * When every outcome is a 429, a 4xx/5xx or a transport failure, at most
   * MAX_RETRIES - attempt further GETs are issued.
   */
  lemma {:induction false} AttemptsBounded(script: seq<Outcome>, i: nat, attempt: nat, maxRetries: int)
    requires i <= |script|
    requires AllCountAttempt(script, i)
    ensures RunFrom(script, i, attempt, maxRetries).gets - i <= if attempt < maxRetries then maxRetries - attempt else 0
    decreases |script| - i
  {
    if attempt < maxRetries && i < |script| {
      DecideAttempt(script[i], attempt, maxRetries);
      match Decide(script[i], attempt, maxRetries)
      case Stop(_) =>
      case Again(_, a) =>
        AttemptsBounded(script, i + 1, a, maxRetries);
    }
  }

  /** From the start: at most MAX_RETRIES GETs (none when MAX_RETRIES <= 0). */
  lemma AtMostMaxRetriesRequests(script: seq<Outcome>, maxRetries: int)
    requires AllCountAttempt(script, 0)
    ensures Fetch(script, maxRetries).gets <= if maxRetries < 0 then 0 else maxRetries
  {
    AttemptsBounded(script, 0, 0, maxRetries);
  }

  predicate BackoffsIn(sleeps: seq<Sleep>, lo: int, hi: int) {
    forall k :: 0 <= k < |sleeps| && sleeps[k].Backoff? ==> lo < sleeps[k].exponent <= hi
  }

  predicate NoServerError(script: seq<Outcome>, i: nat) {
    forall j :: i <= j < |script| ==> !(script[j].Response? && IsServerError(script[j].status))
  }

  /**
   * Every backoff sleeps BACKOFF_FACTOR ** k with attempt < k <= MAX_RETRIES; only
   * a 5xx reaches k == MAX_RETRIES, so without 5xx responses k < MAX_RETRIES.
   */
  lemma {:induction false} BackoffsBounded(script: seq<Outcome>, i: nat, attempt: nat, maxRetries: int)
    requires i <= |script|
    ensures BackoffsIn(RunFrom(script, i, attempt, maxRetries).sleeps, attempt, maxRetries)
    ensures NoServerError(script, i) ==> BackoffsIn(RunFrom(script, i, attempt, maxRetries).sleeps, attempt, maxRetries - 1)
    decreases |script| - i
  {
    if attempt < maxRetries && i < |script| {
      DecideAttempt(script[i], attempt, maxRetries);
      match Decide(script[i], attempt, maxRetries)
      case Stop(_) =>
      case Again(d, a) =>
        BackoffsBounded(script, i + 1, a, maxRetries);
        var rest := RunFrom(script, i + 1, a, maxRetries).sleeps;
        var all := DelayList(d) + rest;
        forall k | 0 <= k < |all| && all[k].Backoff?
          ensures attempt < all[k].exponent <= maxRetries
          ensures NoServerError(script, i) ==> all[k].exponent <= maxRetries - 1
        {
          if k >= |DelayList(d)| {
            assert all[k] == rest[k - |DelayList(d)|];
          }
        }
    }
  }

  /** The facts about the consumed outcomes that explain how a retrieval ended. */
  predicate Explains(script: seq<Outcome>, i: nat, attempt: nat, maxRetries: int, t: Trace)
    requires i <= t.gets <= |script|
  {
    var last := if t.gets > i then Some(script[t.gets - 1]) else None;
    && (t.result.Returned? ==>
          last.Some? && last.value.Response? && last.value.status == 200
          && last.value.text == t.result.body && !IsBlank(t.result.body))
    && (t.result == Raised(EmptyPayload) ==>
          last.Some? && last.value.Response? && last.value.status == 200 && IsBlank(last.value.text))
    && (t.result == Raised(RetryAfterNotInteger) ==>
          last.Some? && last.value.Response? && last.value.status == 429
          && ParseInt(last.value.retryAfter.GetOr(DefaultRetryAfter)).None?)
    && (t.result == Raised(NegativeDelay) ==>
          last.Some? && last.value.Response? && last.value.status == 429
          && ParseInt(last.value.retryAfter.GetOr(DefaultRetryAfter)).Some?
          && ParseInt(last.value.retryAfter.GetOr(DefaultRetryAfter)).value < 0)
    && (t.result == Raised(RequestFailed(Transport)) ==> last == Some(TransportFailure))
    && (t.result.Raised? && t.result.error.RequestFailed? && t.result.error.cause.HttpStatus? ==>
          last.Some? && last.value.Response? && IsCaught(last.value)
          && last.value.status == t.result.error.cause.status)
    && (t.result == Raised(ScriptEnded) ==> t.gets == |script|)
    && (t.result == Raised(RetriesExhausted) ==>
          (last.None? && attempt >= maxRetries)
          || (last.Some? && last.value.Response? && (last.value.status == 429 || IsServerError(last.value.status))))
  }

  /**
   * A retrieval returns only a non-blank 200 body and raises only for the reason
   * its last outcome gives; RuntimeError follows only a 429 or a 5xx (a caught
   * exception on the last attempt re-raises instead).
   */
  lemma {:induction false} RunFromExplained(script: seq<Outcome>, i: nat, attempt: nat, maxRetries: int)
    requires i <= |script|
    ensures Explains(script, i, attempt, maxRetries, RunFrom(script, i, attempt, maxRetries))
    decreases |script| - i
  {
    if attempt < maxRetries && i < |script| {
      match Decide(script[i], attempt, maxRetries)
      case Stop(_) =>
      case Again(_, a) =>
        RunFromExplained(script, i + 1, a, maxRetries);
        var t := RunFrom(script, i + 1, a, maxRetries);
        if t.gets == i + 1 {
          assert t.result == Raised(RetriesExhausted) || t.result == Raised(ScriptEnded);
          DecideAttempt(script[i], attempt, maxRetries);
        }
    }
  }

  function Backoffs(lo: nat, hi: nat): (s: seq<Sleep>)
    ensures |s| == if lo <= hi then hi - lo + 1 else 0
    ensures forall k :: 0 <= k < |s| ==> s[k] == Backoff(lo + k)
    decreases hi + 1 - lo
  {
    if lo > hi then [] else [Backoff(lo)] + Backoffs(lo + 1, hi)
  }

  predicate IsServerErrorOutcome(o: Outcome) {
    o.Response? && IsServerError(o.status)
  }

  /**
   * n server errors and then a non-blank 200, with n < MAX_RETRIES - attempt:
   * the body is returned after sleeping BACKOFF_FACTOR ** (attempt+1), ..., ** (attempt+n).
   */
  lemma {:induction false} ServerErrorsThenOk(script: seq<Outcome>, i: nat, attempt: nat, maxRetries: int)
    requires i < |script|
    requires forall j :: i <= j < |script| - 1 ==> IsServerErrorOutcome(script[j])
    requires script[|script| - 1].Response? && script[|script| - 1].status == 200
    requires !IsBlank(script[|script| - 1].text)
    requires attempt + (|script| - 1 - i) < maxRetries
    ensures RunFrom(script, i, attempt, maxRetries) ==
      Trace(Returned(script[|script| - 1].text), Backoffs(attempt + 1, attempt + (|script| - 1 - i)), |script|)
    decreases |script| - i
  {
    if i < |script| - 1 {
      ServerErrorsThenOk(script, i + 1, attempt + 1, maxRetries);
      assert Backoffs(attempt + 1, attempt + (|script| - 1 - i))
        == [Backoff(attempt + 1)] + Backoffs(attempt + 2, attempt + (|script| - 1 - i));
    }
  }

  /**
   * Server errors all the way: every one counts and backs off, including the one
   * on the last allowed attempt, after which the loop exits with RuntimeError.
   */
  lemma {:induction false} ServerErrorsExhaust(script: seq<Outcome>, i: nat, attempt: nat, maxRetries: int)
    requires i <= |script|
    requires forall j :: i <= j < |script| ==> IsServerErrorOutcome(script[j])
    requires attempt < maxRetries && |script| - i >= maxRetries - attempt
    ensures RunFrom(script, i, attempt, maxRetries) ==
      Trace(Raised(RetriesExhausted), Backoffs(attempt + 1, maxRetries), i + (maxRetries - attempt))
    decreases |script| - i
  {
    if attempt + 1 < maxRetries {
      ServerErrorsExhaust(script, i + 1, attempt + 1, maxRetries);
    }
    assert Backoffs(attempt + 1, maxRetries) == [Backoff(attempt + 1)] + Backoffs(attempt + 2, maxRetries);
  }

  // ---------------------------------------------------------------------------
  // Concrete traces

  const Ok: Outcome := Response(200, "1.2.3.4", None)
  const ServerError: Outcome := Response(500, "", None)

  lemma OkBodyNotBlank()
    ensures !IsBlank(Ok.text)
  {
    BlankIffAllSpace(Ok.text);
    assert !IsSpace(Ok.text[0]);
  }

  /** 500, 500, 500, 200: the body comes back after sleeping backoff ** 1, ** 2 and ** 3. */
  lemma ThreeServerErrorsThenOk()
    ensures Fetch([ServerError, ServerError, ServerError, Ok], 5) ==
      Trace(Returned("1.2.3.4"), [Backoff(1), Backoff(2), Backoff(3)], 4)
  {
    OkBodyNotBlank();
    ServerErrorsThenOk([ServerError, ServerError, ServerError, Ok], 0, 0, 5);
    assert Backoffs(1, 3) == [Backoff(1), Backoff(2), Backoff(3)];
  }

  /** Five 500s with MAX_RETRIES = 5: five backoffs, the last one ** 5, then RuntimeError. */
  lemma FiveServerErrorsExhaust()
    ensures Fetch([ServerError, ServerError, ServerError, ServerError, ServerError], 5) ==
      Trace(Raised(RetriesExhausted), [Backoff(1), Backoff(2), Backoff(3), Backoff(4), Backoff(5)], 5)
  {
    ServerErrorsExhaust([ServerError, ServerError, ServerError, ServerError, ServerError], 0, 0, 5);
    assert Backoffs(1, 5) == [Backoff(1), Backoff(2), Backoff(3), Backoff(4), Backoff(5)];
  }

  /** A 404 reaches `raise_for_status`, whose HTTPError is caught: it is counted and retried. */
  lemma NotFoundIsRetried()
    ensures Fetch([Response(404, "", None), Ok], 5) == Trace(Returned("1.2.3.4"), [Backoff(1)], 2)
  {
    var script := [Response(404, "", None), Ok];
    OkBodyNotBlank();
    assert Decide(script[0], 0, 5) == Again(Some(Backoff(1)), 1);
    assert Decide(script[1], 1, 5) == Stop(Returned("1.2.3.4"));
    assert RunFrom(script, 1, 1, 5) == Trace(Returned("1.2.3.4"), [], 2);
  }

  /** A 404 on the last allowed attempt re-raises its HTTPError without sleeping. */
  lemma NotFoundOnLastAttempt()
    ensures Fetch([Response(404, "", None), Ok], 1) == Trace(Raised(RequestFailed(HttpStatus(404))), [], 1)
  {
  }

  /** A 304 does not raise and does not count: the loop just asks again. */
  lemma NotModifiedRepeats()
    ensures Fetch([Response(304, "", None), Response(304, "", None), Ok], 1) == Trace(Returned("1.2.3.4"), [], 3)
  {
    var script := [Response(304, "", None), Response(304, "", None), Ok];
    OkBodyNotBlank();
    assert Decide(script[0], 0, 1) == Again(None, 0);
    assert Decide(script[1], 0, 1) == Again(None, 0);
    assert Decide(script[2], 0, 1) == Stop(Returned("1.2.3.4"));
    assert RunFrom(script, 2, 0, 1) == Trace(Returned("1.2.3.4"), [], 3);
    assert RunFrom(script, 1, 0, 1) == Trace(Returned("1.2.3.4"), [], 3);
  }

  /** A 429 with `Retry-After: 5` sleeps five seconds, not a backoff, before retrying. */
  lemma RateLimitedThenOk()
    ensures Fetch([Response(429, "", Some("5")), Ok], 5) == Trace(Returned("1.2.3.4"), [Fixed(5)], 2)
  {
    var script := [Response(429, "", Some("5")), Ok];
    OkBodyNotBlank();
    RateLimitSleepsAdvertisedDelay("", 5, 0, 5);
    assert NatToString(5) == "5";
    assert Decide(script[0], 0, 5) == Again(Some(Fixed(5)), 1);
    assert Decide(script[1], 1, 5) == Stop(Returned("1.2.3.4"));
    assert RunFrom(script, 1, 1, 5) == Trace(Returned("1.2.3.4"), [], 2);
  }
}
