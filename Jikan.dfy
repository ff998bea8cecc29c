/**
 * jikanFetch: the small retry loop both pages of the front end put in front
 * of the Jikan catalog API. A request answered with 429 Too Many Requests
 * (section 4 of RFC 6585) or with a 5xx server error (section 15.6 of
 * RFC 9110) is retried after a pause that grows linearly with the attempt
 * number; any other failure ends the call at once.
 *
 * The network is an input: `reply(k)` is what the k-th `fetch` of the call
 * (counting from 0) gives back. Sleeping is modelled by the list of pauses
 * the loop asks for.
 */
module Jikan {

  /** What one `fetch(url)` gives back: a response with its status and
      parsed body, or a rejected promise. */
  datatype Reply<B> = Response(status: int, body: B) | NetworkFailure

  /** How a call settles: resolved with the body of an OK response, rejected
      with `Error('Jikan error ' + status)`, or rejected by fetch itself. */
  datatype Outcome<B> = Resolved(body: B) | JikanError(status: int) | FetchRejected

  /** `Response.ok`. */
  predicate IsOk(status: int) {
    200 <= status <= 299
  }

  predicate IsRetriable(status: int)
    ensures IsRetriable(status) ==> !IsOk(status)
    ensures 400 <= status < 500 ==> (IsRetriable(status) <==> status == 429)
  {
    status == 429 || status >= 500
  }

  /** An OK response carrying `body`. */
  ghost predicate OkWith<B>(r: Reply<B>, body: B) {
    r.Response? && IsOk(r.status) && r.body == body
  }

  /** A reply that the loop answers with a pause and another attempt,
      provided attempts remain. */
  predicate RetriableFailure<B>(r: Reply<B>) {
    r.Response? && !IsOk(r.status) && IsRetriable(r.status)
  }

  /** The defaults of the two copies of jikanFetch: both retry twice, the
      catalog page (public/script.js) pauses 700 ms per attempt number, the
      detail page (public/anime.js) 800 ms. */
  const DefaultRetries: nat := 2
  const CatalogBackoffMs: nat := 700
  const DetailBackoffMs: nat := 800

  /** How the call ends once it stops at reply `r`. */
  function Verdict<B>(r: Reply<B>): Outcome<B> {
    match r
    case NetworkFailure => FetchRejected
    case Response(status, body) => if IsOk(status) then Resolved(body) else JikanError(status)
  }

  /** Reference definition of the loop, attempt by attempt, from attempt
      number `attempt` on. */
  function Settle<B>(reply: nat -> Reply<B>, retries: nat, attempt: nat): Outcome<B>
    requires attempt <= retries
    decreases retries - attempt
  {
    match reply(attempt)
    case NetworkFailure => FetchRejected
    case Response(status, body) =>
      if IsOk(status) then Resolved(body)
      else if IsRetriable(status) && attempt < retries then Settle(reply, retries, attempt + 1)
      else JikanError(status)
  }

  /** How many requests the loop makes from attempt number `attempt` on. */
  function Requests<B>(reply: nat -> Reply<B>, retries: nat, attempt: nat): nat
    requires attempt <= retries
    decreases retries - attempt
  {
    if RetriableFailure(reply(attempt)) && attempt < retries then 1 + Requests(reply, retries, attempt + 1) else 1
  }

  /** The loop: at most `retries + 1` requests, a pause of
      `backoffMs * (k + 1)` after the k-th retriable failure, and the first
      reply that is not a retriable failure (or the last allowed one) decides
      the outcome. */
  method JikanFetch<B>(reply: nat -> Reply<B>, retries: nat, backoffMs: nat)
    returns (outcome: Outcome<B>, requests: nat, pauses: seq<nat>)
    ensures outcome == Settle(reply, retries, 0)
    ensures requests == Requests(reply, retries, 0)
    ensures 1 <= requests <= retries + 1
    ensures |pauses| == requests - 1
    ensures forall k :: 0 <= k < |pauses| ==> pauses[k] == backoffMs * (k + 1)
  {
    var attempt: nat := 0;
    var res := reply(0);
    pauses := [];
    while RetriableFailure(res) && attempt < retries
      invariant attempt <= retries
      invariant res == reply(attempt)
      invariant Settle(reply, retries, 0) == Settle(reply, retries, attempt)
      invariant Requests(reply, retries, 0) == attempt + Requests(reply, retries, attempt)
      invariant |pauses| == attempt
      invariant forall k :: 0 <= k < attempt ==> pauses[k] == backoffMs * (k + 1)
      decreases retries - attempt
    {
      pauses := pauses + [backoffMs * (attempt + 1)];
      attempt := attempt + 1;
      res := reply(attempt);
    }
    requests := attempt + 1;
    outcome := Verdict(res);
  }

  /** With a positive step the pauses grow strictly from one retry to the
      next. */
  lemma PausesGrow(pauses: seq<nat>, backoffMs: nat)
    requires forall k :: 0 <= k < |pauses| ==> pauses[k] == backoffMs * (k + 1)
    requires backoffMs > 0
    ensures forall j, k :: 0 <= j < k < |pauses| ==> pauses[j] < pauses[k]
  {
    forall j, k | 0 <= j < k < |pauses| ensures pauses[j] < pauses[k] {
      StepGrows(backoffMs, j, k);
    }
  }

  lemma {:induction false} StepGrows(step: nat, j: nat, k: nat)
    requires step > 0 && j < k
    ensures step * (j + 1) < step * (k + 1)
    decreases k - j
  {
    assert step * (j + 2) == step * (j + 1) + step;
    if j + 1 < k {
      StepGrows(step, j + 1, k);
    }
  }

  /** The shape of every run: the requests before the last one all met a
      retriable failure, the last one is either the last allowed attempt or
      met something else, and that last reply alone decides the outcome. */
  lemma {:induction false} SettleShape<B>(reply: nat -> Reply<B>, retries: nat, attempt: nat)
    requires attempt <= retries
    ensures var last := attempt + Requests(reply, retries, attempt) - 1;
            && last <= retries
            && (forall k :: attempt <= k < last ==> RetriableFailure(reply(k)))
            && (last == retries || !RetriableFailure(reply(last)))
            && Settle(reply, retries, attempt) == Verdict(reply(last))
    decreases retries - attempt
  {
    if RetriableFailure(reply(attempt)) && attempt < retries {
      SettleShape(reply, retries, attempt + 1);
    }
  }

  /** The call resolves exactly when some allowed attempt meets an OK
      response and every attempt before it met a retriable failure; the
      body is that response's body. */
  lemma ResolvedIffOkAfterRetriable<B>(reply: nat -> Reply<B>, retries: nat, body: B)
    ensures Settle(reply, retries, 0) == Resolved(body)
            <==> exists n :: 0 <= n <= retries
                   && OkWith(reply(n), body)
                   && forall k :: 0 <= k < n ==> RetriableFailure(reply(k))
  {
    SettleShape(reply, retries, 0);
    var last: nat := Requests(reply, retries, 0) - 1;
    if exists n :: 0 <= n <= retries
                   && OkWith(reply(n), body)
                   && forall k :: 0 <= k < n ==> RetriableFailure(reply(k))
    {
      var n :| 0 <= n <= retries
               && OkWith(reply(n), body)
               && forall k :: 0 <= k < n ==> RetriableFailure(reply(k));
      // n cannot lie before `last` (it is no retriable failure), nor after it
      // (`last` is then a retriable failure before n, hence not the final one).
      assert !RetriableFailure(reply(n));
      assert !(n < last);
      assert !(last < n) by {
        assert last < n ==> RetriableFailure(reply(last));
      }
    }
  }

  /** A non-retriable error status ends the call after one request. */
  lemma NonRetriableFailsAtOnce<B>(reply: nat -> Reply<B>, retries: nat)
    requires reply(0).Response? && !IsOk(reply(0).status) && !IsRetriable(reply(0).status)
    ensures Settle(reply, retries, 0) == JikanError(reply(0).status)
    ensures Requests(reply, retries, 0) == 1
  {
  }

  /** A retriable status met at the last allowed attempt is thrown. */
  lemma {:induction false} AlwaysThrottledFails<B>(reply: nat -> Reply<B>, retries: nat, attempt: nat)
    requires attempt <= retries
    requires forall k :: reply(k).Response? && reply(k).status == 429
    ensures Settle(reply, retries, attempt) == JikanError(429)
    ensures Requests(reply, retries, attempt) == retries + 1 - attempt
    decreases retries - attempt
  {
    if attempt < retries {
      AlwaysThrottledFails(reply, retries, attempt + 1);
    }
  }

  /** Two throttled replies followed by an OK one: with the default of two
      retries the call resolves with the third reply's body after exactly
      three requests. */
  lemma ThrottledTwiceThenOk<B>(reply: nat -> Reply<B>, body: B)
    requires reply(0).Response? && reply(0).status == 429
    requires reply(1).Response? && reply(1).status == 429
    requires reply(2) == Response(200, body)
    ensures Settle(reply, DefaultRetries, 0) == Resolved(body)
    ensures Requests(reply, DefaultRetries, 0) == 3
  {
    assert Settle(reply, DefaultRetries, 2) == Resolved(body);
    assert Requests(reply, DefaultRetries, 2) == 1;
  }
}
