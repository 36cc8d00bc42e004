/** Retrying a request whose backend answered with the proxy's connect error. */
module Retry {
  import opened Basics

  const SERVICE_UNAVAILABLE := 503
  const RETRYABLE_PREFIX := "upstream connect error or disconnect/reset before headers"

  datatype Response = Response(status: int, body: string)

  predicate Retryable(r: Response) {
    r.status == SERVICE_UNAVAILABLE && RETRYABLE_PREFIX <= r.body
  }

  /** How one round trip ends. The body is read only of a 503, and reading it may fail. */
  datatype Attempt = RoundTripError | BodyUnreadable | Answered(response: Response)

  /** What a retry loop returns, after how many round trips and seconds of sleep. */
  datatype Outcome = Outcome(result: Result<Response>, trips: nat, slept: nat)

  /** How round trip number `n`, counted from zero, ends; past its end the list stands for a
      backend that is gone. */
  function Trip(backend: seq<Attempt>, n: nat): Attempt {
    if n < |backend| then backend[n] else RoundTripError
  }

  /** What `retryRequest` makes of responses as values. */
  function RetryRequest(backend: seq<Attempt>, resp: Response, maxRetries: int, attempt: nat): Outcome
    decreases maxRetries - attempt
  {
    if attempt >= maxRetries then Outcome(Ok(resp), 0, 0)
    else
      var pause := 2 * (attempt + 1);
      match Trip(backend, attempt)
      case RoundTripError => Further(RetryRequest(backend, resp, maxRetries, attempt + 1), pause)
      case BodyUnreadable => Outcome(Err("unreadable body"), 1, pause)
      case Answered(r) =>
        if Retryable(r) then Further(RetryRequest(backend, r, maxRetries, attempt + 1), pause)
        else Outcome(Ok(r), 1, pause)
  }

  function Further(rest: Outcome, pause: nat): Outcome {
    Outcome(rest.result, 1 + rest.trips, pause + rest.slept)
  }

  /** The round trip settles the request, for better or worse. */
  predicate Settles(a: Attempt) {
    a.BodyUnreadable? || (a.Answered? && !Retryable(a.response))
  }

  function Verdict(a: Attempt): Result<Response>
    requires Settles(a)
  {
    if a.BodyUnreadable? then Err("unreadable body") else Ok(a.response)
  }

  /** The last response among the first `n` round trips, or `resp` if none brought one. */
  function LastResponse(backend: seq<Attempt>, resp: Response, n: nat): Response {
    if n == 0 then resp
    else if Trip(backend, n - 1).Answered? then Trip(backend, n - 1).response
    else LastResponse(backend, resp, n - 1)
  }

  /** Retries from number `attempt` on sleep `2(attempt+1)`, `2(attempt+2)`, ... seconds. */
  lemma {:induction false} SleepFrom(backend: seq<Attempt>, resp: Response, maxRetries: int, attempt: nat)
    ensures var o := RetryRequest(backend, resp, maxRetries, attempt);
            var end := attempt + o.trips;
            && (attempt <= maxRetries ==> end <= maxRetries) && (attempt > maxRetries ==> o.trips == 0)
            && o.slept == end * (end + 1) - attempt * (attempt + 1)
    decreases maxRetries - attempt
  {
    assert (attempt + 1) * (attempt + 2) == attempt * (attempt + 1) + 2 * (attempt + 1);
    if attempt < maxRetries {
      SleepFrom(backend, resp, maxRetries, attempt + 1);
      if Trip(backend, attempt).Answered? {
        SleepFrom(backend, Trip(backend, attempt).response, maxRetries, attempt + 1);
      }
    }
  }

  lemma {:induction false} RetryFrom(backend: seq<Attempt>, resp: Response, maxRetries: int, attempt: nat)
    requires forall i | 0 <= i < attempt :: !Settles(Trip(backend, i))
    ensures var o := RetryRequest(backend, LastResponse(backend, resp, attempt), maxRetries, attempt);
            var end := attempt + o.trips;
            && (forall i | 0 <= i < end - 1 :: !Settles(Trip(backend, i)))
            && if o.trips > 0 && Settles(Trip(backend, end - 1)) then o.result == Verdict(Trip(backend, end - 1))
               else o.result == Ok(LastResponse(backend, resp, end)) && end >= maxRetries
    decreases maxRetries - attempt
  {
    if attempt < maxRetries && !Settles(Trip(backend, attempt)) {
      RetryFrom(backend, resp, maxRetries, attempt + 1);
    }
  }

  /** For every behaviour of the backend: at most `maxRetries` round trips, `k(k+1)` seconds of
      sleep over `k` of them, and the result is that of the first round trip that settles the
      request, else the last response there was, unchanged, after all retries. */
  lemma RetryOutcome(backend: seq<Attempt>, resp: Response, maxRetries: int)
    ensures var o := RetryRequest(backend, resp, maxRetries, 0);
            && o.trips <= (if maxRetries > 0 then maxRetries else 0)
            && o.slept == o.trips * (o.trips + 1)
            && (forall i | 0 <= i < o.trips - 1 :: !Settles(Trip(backend, i)))
            && if o.trips > 0 && Settles(Trip(backend, o.trips - 1))
               then o.result == Verdict(Trip(backend, o.trips - 1))
               else o.result == Ok(LastResponse(backend, resp, o.trips)) && o.trips >= maxRetries
  {
    SleepFrom(backend, resp, maxRetries, 0);
    RetryFrom(backend, resp, maxRetries, 0);
  }

  /** The hook of `forwardRequest` on the backend's first response. */
  function ModifyResponse(backend: seq<Attempt>, first: Response, readable: bool, maxRetries: int): Result<Response> {
    if first.status != SERVICE_UNAVAILABLE then Ok(first)
    else if !readable then Err("unreadable body")
    else if Retryable(first) then RetryRequest(backend, first, maxRetries, 0).result
    else Ok(first)
  }

  lemma {:induction false} LastStaysRetryable(backend: seq<Attempt>, resp: Response, n: nat)
    requires Retryable(resp) && forall i | 0 <= i < n :: !Settles(Trip(backend, i))
    ensures Retryable(LastResponse(backend, resp, n))
  {
    if n > 0 {
      LastStaysRetryable(backend, resp, n - 1);
    }
  }

  /** The client gets to see the connect error exactly when the backend began with it, readably,
      and no retry settled the request. */
  lemma ConnectErrorReachesClientIff(backend: seq<Attempt>, first: Response, readable: bool, maxRetries: int)
    ensures var r := ModifyResponse(backend, first, readable, maxRetries);
            r.Ok? && Retryable(r.value) <==>
            readable && Retryable(first) && forall i: nat | i < maxRetries :: !Settles(Trip(backend, i))
  {
    RetryOutcome(backend, first, maxRetries);
    var o := RetryRequest(backend, first, maxRetries, 0);
    if Retryable(first) && (o.trips == 0 || !Settles(Trip(backend, o.trips - 1))) {
      LastStaysRetryable(backend, first, o.trips);
    }
  }

  /** What is retried: a 503 whose body begins with the proxy's words, and nothing else. A round trip
      settles the request if it is any other answer, or a 503 that cannot be read. */
  lemma WhatIsRetried(r: Response)
    ensures Retryable(r) <==>
            r.status == 503 && "upstream connect error or disconnect/reset before headers" <= r.body
    ensures Settles(Answered(r)) <==> !Retryable(r)
    ensures !Settles(RoundTripError) && Settles(BodyUnreadable)
  {
  }

  /** No round trip of `from .. to` brings a response. */
  ghost predicate Silent(backend: seq<Attempt>, from: nat, to: nat) {
    forall i: nat | from <= i < to :: !Trip(backend, i).Answered?
  }

  /** The last response is the latest that a round trip brought. */
  lemma {:induction false} LastResponseIsLatest(backend: seq<Attempt>, resp: Response, n: nat, i: nat)
    requires i < n && Trip(backend, i).Answered? && Silent(backend, i + 1, n)
    ensures LastResponse(backend, resp, n) == Trip(backend, i).response
  {
    if i < n - 1 {
      LastResponseIsLatest(backend, resp, n - 1, i);
    }
  }

  /** If none did, it is the one before all of them. */
  lemma {:induction false} LastResponseIsFirst(backend: seq<Attempt>, resp: Response, n: nat)
    requires Silent(backend, 0, n)
    ensures LastResponse(backend, resp, n) == resp
  {
    if n > 0 {
      LastResponseIsFirst(backend, resp, n - 1);
    }
  }

  /** What the hook lets through untouched, and what it turns into an error: any status but 503 is
      left alone, readable or not; a 503 that cannot be read is an error; a readable one without
      the proxy's words is left alone. */
  lemma OtherResponsesAreLeftAlone(backend: seq<Attempt>, first: Response, readable: bool, maxRetries: int)
    ensures var r := ModifyResponse(backend, first, readable, maxRetries);
            && (first.status != 503 ==> r == Ok(first))
            && (first.status == 503 && !readable ==> r.Err?)
            && (first.status == 503 && readable ==>
                  "upstream connect error or disconnect/reset before headers" <= first.body || r == Ok(first))
  {
  }

  /** And what it makes of a readable connect error: the first round trip below `maxRetries` that
      settles the request decides, an unreadable 503 as an error and any other answer as itself;
      if none does, the client gets the last response there was. */
  lemma ConnectErrorIsRetried(backend: seq<Attempt>, first: Response, maxRetries: int)
    requires Retryable(first)
    ensures var r := ModifyResponse(backend, first, true, maxRetries);
            && (forall i: nat | i < maxRetries && Settles(Trip(backend, i))
                                && (forall j | 0 <= j < i :: !Settles(Trip(backend, j))) ::
                  if Trip(backend, i).Answered? then r == Ok(Trip(backend, i).response) else r.Err?)
            && ((forall i: nat | i < maxRetries :: !Settles(Trip(backend, i))) ==>
                  r == Ok(LastResponse(backend, first, if maxRetries > 0 then maxRetries else 0)))
  {
    RetryOutcome(backend, first, maxRetries);
    var o := RetryRequest(backend, first, maxRetries, 0);
    forall i: nat | i < maxRetries && Settles(Trip(backend, i)) && forall j | 0 <= j < i :: !Settles(Trip(backend, j))
      ensures o.trips == i + 1
    {
      assert o.trips > 0 && Settles(Trip(backend, o.trips - 1)) ==> o.trips - 1 >= i;
    }
  }

  // ---------- bodies that are read once ----------

  /** A response body: reading uses it up. */
  class Stream {
    var unread: string
    const broken: bool

    constructor (unread: string, broken: bool)
      ensures this.unread == unread && this.broken == broken
    {
      this.unread, this.broken := unread, broken;
    }

    method ReadFrom() returns (buf: string, ok: bool)
      modifies this
      ensures unread == "" && (ok <==> !broken) && (ok ==> buf == old(unread))
    {
      buf, ok := unread, !broken;
      unread := "";
    }
  }

  class HTTPResponse {
    var status: int
    var body: Stream

    constructor (status: int, body: Stream)
      ensures this.status == status && this.body == body
    {
      this.status, this.body := status, body;
    }

    /** What whoever reads the body now will get. */
    ghost function Content(): Response
      reads this, body
    {
      Response(status, body.unread)
    }

    /** The body is read to the end, and a new one with the same bytes takes its place. */
    method Buffer() returns (buf: string, ok: bool)
      modifies this, body
      ensures ok <==> !old(body.broken)
      ensures ok ==> fresh(body) && buf == old(body.unread) && Content() == old(Content())
    {
      buf, ok := body.ReadFrom();
      if ok {
        body := new Stream(buf, false);
      }
    }
  }

  method RoundTrip(a: Attempt) returns (resp: Option<HTTPResponse>)
    ensures resp.None? <==> a.RoundTripError?
    ensures resp.Some? ==>
              && fresh(resp.value) && fresh(resp.value.body)
              && (resp.value.body.broken <==> a.BodyUnreadable?)
              && (if a.Answered? then resp.value.Content() == a.response else resp.value.status == SERVICE_UNAVAILABLE)
  {
    match a {
      case RoundTripError => resp := None;
      case BodyUnreadable =>
        var body := new Stream("", true);
        var response := new HTTPResponse(SERVICE_UNAVAILABLE, body);
        resp := Some(response);
      case Answered(r) =>
        var body := new Stream(r.body, false);
        var response := new HTTPResponse(r.status, body);
        resp := Some(response);
    }
  }

  /** `retryRequest`: the response it returns has every byte of its body still to be read, although
      the retries have read the body of each 503 to look at its beginning. */
  method Retried(backend: seq<Attempt>, resp: HTTPResponse, maxRetries: int, attempt: nat)
    returns (result: Option<HTTPResponse>, trips: nat, slept: nat)
    ensures var o := RetryRequest(backend, old(resp.Content()), maxRetries, attempt);
            && trips == o.trips && slept == o.slept && (result.Some? <==> o.result.Ok?)
            && (result.Some? ==> result.value.Content() == o.result.value)
    decreases maxRetries - attempt
  {
    if attempt >= maxRetries {
      return Some(resp), 0, 0;
    }
    var pause := 2 * (attempt + 1);
    var newResp := RoundTrip(Trip(backend, attempt));
    if newResp.None? {
      result, trips, slept := Retried(backend, resp, maxRetries, attempt + 1);
      return result, 1 + trips, pause + slept;
    }
    if newResp.value.status == SERVICE_UNAVAILABLE {
      var buf, ok := newResp.value.Buffer();
      if !ok {
        return None, 1, pause;
      }
      if RETRYABLE_PREFIX <= buf {
        result, trips, slept := Retried(backend, newResp.value, maxRetries, attempt + 1);
        return result, 1 + trips, pause + slept;
      }
    }
    return newResp, 1, pause;
  }

  /** The hook of `forwardRequest`, which puts the outcome in place of the response it was given. */
  method ModifyInPlace(backend: seq<Attempt>, resp: HTTPResponse, maxRetries: int) returns (ok: bool)
    modifies resp, resp.body
    ensures var r := ModifyResponse(backend, old(resp.Content()), !old(resp.body.broken), maxRetries);
            (ok <==> r.Ok?) && (ok ==> resp.Content() == r.value)
  {
    if resp.status == SERVICE_UNAVAILABLE {
      var buf, read := resp.Buffer();
      if !read {
        return false;
      }
      if RETRYABLE_PREFIX <= buf {
        var updated, _, _ := Retried(backend, resp, maxRetries, 0);
        if updated.None? {
          return false;
        }
        resp.status, resp.body := updated.value.status, updated.value.body;
      }
    }
    ok := true;
  }
}
