/**
 * The retry/backoff loop of `fetchWithRetry`: up to `retries` attempts, each
 * either handing a response back, or recording a failure and sleeping
 * `2^i * 500` ms before the next attempt; once the attempts are used up the
 * last recorded failure is thrown.
 *
 * The network is a parameter: `network(i)` is what the `i`-th `fetch` call
 * gives (a response, or a rejection such as the 30-second timeout). Sleeping
 * is not performed; the delays the loop would sleep are returned instead.
 */
module Retry {
  import opened JsText

  /** The default attempt budget. */
  const DefaultRetries := 3

  datatype Response = Response(status: nat, statusText: string)

  /** What one `fetch` call did: it answered, or it rejected. */
  datatype Attempt = Answered(response: Response) | NetworkError(message: string)

  /** The errors the loop records; `Message` is the thrown `Error`'s message. */
  datatype FetchError =
    | HttpError(status: nat, statusText: string)
    | NotFound
    | Network(message: string)
    | RetriesExhausted
  {
    function Message(): string {
      match this
      case HttpError(status, statusText) => "HTTP " + NatToDecimal(status) + ": " + statusText
      case NotFound => "HTTP 404: Not Found"
      case Network(message) => message
      case RetriesExhausted => "Failed to fetch after retries"
    }
  }

  /** The promise `fetchWithRetry` returns: resolved with a response, or rejected. */
  datatype FetchResult = Resolved(response: Response) | Rejected(error: FetchError)

  /**
   * What one attempt means for the loop: hand this response back, stop with
   * this error, or record this error and try again.
   */
  datatype Verdict = Deliver(response: Response) | Abort(error: FetchError) | TryAgain(error: FetchError)

  /** `response.ok`. */
  predicate IsOk(status: nat) {
    200 <= status < 300
  }

  predicate IsNotFound(a: Attempt) {
    a.Answered? && a.response.status == 404
  }

  /**
   * The classification `fetchWithRetry` applies, by status class: 2xx, 302 and
   * every 4xx but 404 and 429 are handed back as they are; everything else is
   * retried. 404 is retried too: its `throw` sits inside the `try` whose
   * `catch` records it like any other failure.
   */
  function Classify(a: Attempt): Verdict {
    match a
    case NetworkError(message) => TryAgain(Network(message))
    case Answered(r) =>
      if r.status == 404 then TryAgain(NotFound)
      else if r.status == 429 then TryAgain(HttpError(r.status, r.statusText))
      else if IsOk(r.status) || r.status == 302 || 400 <= r.status < 500 then Deliver(r)
      else TryAgain(HttpError(r.status, r.statusText))
  }

  /** The classification the comment on the 404 branch describes: 404 stops at once. */
  function ClassifyIntended(a: Attempt): Verdict {
    if IsNotFound(a) then Abort(NotFound) else Classify(a)
  }

  function Pow2(n: nat): nat {
    if n == 0 then 1 else 2 * Pow2(n - 1)
  }

  /** The sleep after attempt `i` (`Math.pow(2, i) * 500` ms). */
  function Backoff(i: nat): nat {
    Pow2(i) * 500
  }

  /** The sleeps after attempts 0 .. n-1. */
  function Backoffs(n: nat): seq<nat> {
    seq(n, k requires 0 <= k => Backoff(k))
  }

  /**
   * A response is handed back exactly when it is a 2xx, a 302 or a 4xx other
   * than 404 and 429. Every other outcome is recorded for a retry: a 404 as
   * the explicit "Not Found" error, any other status as its status line, a
   * rejection as itself.
   */
  lemma ClassifyByStatus(a: Attempt)
    ensures Classify(a).Deliver? <==>
              a.Answered? && (IsOk(a.response.status) || a.response.status == 302
                              || (400 <= a.response.status < 500 && a.response.status != 404 && a.response.status != 429))
    ensures Classify(a).Deliver? ==> Classify(a).response == a.response
    ensures a.NetworkError? ==> Classify(a) == TryAgain(Network(a.message))
    ensures IsNotFound(a) ==> Classify(a) == TryAgain(NotFound)
    ensures a.Answered? && !IsNotFound(a) && !Classify(a).Deliver? ==>
              Classify(a) == TryAgain(HttpError(a.response.status, a.response.statusText))
  {
  }

  /** The intended classification departs from the written one at a 404 only, where it stops. */
  lemma IntendedDiffersOnlyAtNotFound(a: Attempt)
    ensures ClassifyIntended(a).Abort? <==> IsNotFound(a)
    ensures ClassifyIntended(a) != Classify(a) <==> IsNotFound(a)
  {
  }

  /** The first sleep is 500 ms and every later one doubles the one before. */
  lemma BackoffDoubles(i: nat)
    ensures Backoff(0) == 500
    ensures Backoff(i + 1) == 2 * Backoff(i)
  {
  }

  /**
   * A longer budget sleeps the same delays first and one more at the end.
   * The default budget sleeps after its first two attempts only: 500 ms and
   * 1000 ms.
   */
  lemma BackoffsExtend(n: nat)
    ensures Backoffs(n + 1) == Backoffs(n) + [Backoff(n)]
    ensures Backoffs(DefaultRetries - 1) == [500, 1000]
  {
    assert Pow2(1) == 2;
  }

  /**
   * Whatever the network does, a run with the default budget sleeps at most
   * twice, and each sleep is 500 ms or 1000 ms.
   */
  lemma DefaultRunSleepsAtMostTwice(classify: Attempt -> Verdict, network: nat -> Attempt)
    ensures |Expected(classify, network, DefaultRetries).delays| <= 2
    ensures forall d :: d in Expected(classify, network, DefaultRetries).delays ==> d == 500 || d == 1000
  {
    var t := Expected(classify, network, DefaultRetries);
    assert Pow2(1) == 2;
    forall d | d in t.delays
      ensures d == 500 || d == 1000
    {
      var k :| 0 <= k < |t.delays| && t.delays[k] == d;
      assert k == 0 || k == 1;
    }
  }

  /** A status-line error's message starts with `HTTP ` followed by its status. */
  lemma HttpMessageCarriesStatus(status: nat, statusText: string)
    ensures StartsWith(HttpError(status, statusText).Message(), "HTTP ")
    ensures ParseInt10(HttpError(status, statusText).Message()[5..]) == Some(status)
  {
    var d := NatToDecimal(status);
    var m := HttpError(status, statusText).Message();
    assert m == "HTTP " + (d + [':'] + (" " + statusText));
    assert m[..5] == "HTTP ";
    assert m[5..] == d + [':'] + (" " + statusText);
    ParseInt10ReadsDigitPrefix(d, ':', " " + statusText);
  }

  /** The explicit 404 error carries the message a 404 "Not Found" status line would. */
  lemma NotFoundMessage()
    ensures NotFound.Message() == HttpError(404, "Not Found").Message()
  {
    assert NatToDecimal(404) == "404" by {
      assert NatToDecimal(40) == "40" by {
        assert NatToDecimal(4) == "4";
      }
    }
  }

  /** The first attempt in `from .. retries-1` that does not ask for a retry. */
  function FirstDecisive(classify: Attempt -> Verdict, network: nat -> Attempt, retries: int, from: nat): (r: Option<nat>)
    ensures r.Some? ==> from <= r.value < retries && !classify(network(r.value)).TryAgain?
                        && forall j :: from <= j < r.value ==> classify(network(j)).TryAgain?
    ensures r.None? ==> forall j :: from <= j < retries ==> classify(network(j)).TryAgain?
    decreases retries - from
  {
    if from >= retries then None
    else if !classify(network(from)).TryAgain? then Some(from)
    else FirstDecisive(classify, network, retries, from + 1)
  }

  /** What a run does: its result, the delays it sleeps, how many fetches it makes. */
  datatype Trace = Trace(result: FetchResult, delays: seq<nat>, attempts: nat)

  /**
   * The run as a whole: it stops at the first attempt that is not retried,
   * and otherwise makes every attempt and rejects with the last failure (or
   * with the generic error when there was no attempt at all). At most
   * `retries` fetches; a delay `2^k * 500` after every attempt but the last.
   */
  function Expected(classify: Attempt -> Verdict, network: nat -> Attempt, retries: int): (t: Trace)
    ensures t.attempts <= (if retries > 0 then retries else 0)
    ensures retries > 0 ==> t.attempts >= 1
    ensures |t.delays| == (if t.attempts == 0 then 0 else t.attempts - 1)
    ensures forall k :: 0 <= k < |t.delays| ==> t.delays[k] == Pow2(k) * 500
  {
    match FirstDecisive(classify, network, retries, 0)
    case Some(i) =>
      var v := classify(network(i));
      Trace(if v.Deliver? then Resolved(v.response) else Rejected(v.error), Backoffs(i), i + 1)
    case None =>
      if retries <= 0 then Trace(Rejected(RetriesExhausted), [], 0)
      else Trace(Rejected(classify(network(retries - 1)).error), Backoffs(retries - 1), retries)
  }

  lemma FirstDecisiveAt(classify: Attempt -> Verdict, network: nat -> Attempt, retries: int, i: nat)
    requires i < retries && !classify(network(i)).TryAgain?
    requires forall j :: 0 <= j < i ==> classify(network(j)).TryAgain?
    ensures FirstDecisive(classify, network, retries, 0) == Some(i)
  {
  }

  /**
   * `fetchWithRetry`'s loop, attempt by attempt, with `fetch` replaced by
   * `network` and each sleep recorded in `delays`.
   */
  method FetchWithRetry(network: nat -> Attempt, retries: int) returns (result: FetchResult, delays: seq<nat>, attempts: nat)
    ensures Trace(result, delays, attempts) == Expected(Classify, network, retries)
  {
    var lastError: Option<FetchError> := None;
    delays := [];
    attempts := 0;
    var i := 0;
    while i < retries
      invariant 0 <= i && (retries > 0 ==> i <= retries) && (retries <= 0 ==> i == 0)
      invariant attempts == i
      invariant forall j :: 0 <= j < i ==> Classify(network(j)).TryAgain?
      invariant lastError == if i == 0 then None else Some(Classify(network(i - 1)).error)
      invariant i < retries ==> delays == Backoffs(i)
      invariant 0 < i == retries ==> delays == Backoffs(i - 1)
      invariant retries <= 0 ==> delays == []
    {
      var outcome := network(i);
      attempts := attempts + 1;
      match outcome {
        case NetworkError(message) =>
          lastError := Some(Network(message));
        case Answered(response) =>
          if IsOk(response.status) || response.status == 206 || response.status == 302 {
            FirstDecisiveAt(Classify, network, retries, i);
            result := Resolved(response);
            return;
          }
          if 400 <= response.status < 500 && response.status != 429 {
            if response.status == 404 {
              // thrown inside the `try`, so caught and recorded below
              lastError := Some(NotFound);
            } else {
              FirstDecisiveAt(Classify, network, retries, i);
              result := Resolved(response);
              return;
            }
          } else {
            lastError := Some(HttpError(response.status, response.statusText));
          }
      }
      if i < retries - 1 {
        delays := delays + [Pow2(i) * 500];
        assert delays == Backoffs(i + 1);
      }
      i := i + 1;
    }
    result := Rejected(if lastError.Some? then lastError.value else RetriesExhausted);
  }

  /**
   * The loop as its 404 comment intends it: a 404 rejects at once instead of
   * being caught and retried. Everything else is as in `FetchWithRetry`.
   */
  method FetchWithRetryFailFast(network: nat -> Attempt, retries: int) returns (result: FetchResult, delays: seq<nat>, attempts: nat)
    ensures Trace(result, delays, attempts) == Expected(ClassifyIntended, network, retries)
  {
    var lastError: Option<FetchError> := None;
    delays := [];
    attempts := 0;
    var i := 0;
    while i < retries
      invariant 0 <= i && (retries > 0 ==> i <= retries) && (retries <= 0 ==> i == 0)
      invariant attempts == i
      invariant forall j :: 0 <= j < i ==> ClassifyIntended(network(j)).TryAgain?
      invariant lastError == if i == 0 then None else Some(ClassifyIntended(network(i - 1)).error)
      invariant i < retries ==> delays == Backoffs(i)
      invariant 0 < i == retries ==> delays == Backoffs(i - 1)
      invariant retries <= 0 ==> delays == []
    {
      var outcome := network(i);
      attempts := attempts + 1;
      match outcome {
        case NetworkError(message) =>
          lastError := Some(Network(message));
        case Answered(response) =>
          if IsOk(response.status) || response.status == 206 || response.status == 302 {
            FirstDecisiveAt(ClassifyIntended, network, retries, i);
            result := Resolved(response);
            return;
          }
          if 400 <= response.status < 500 && response.status != 429 {
            FirstDecisiveAt(ClassifyIntended, network, retries, i);
            result := if response.status == 404 then Rejected(NotFound) else Resolved(response);
            return;
          }
          lastError := Some(HttpError(response.status, response.statusText));
      }
      if i < retries - 1 {
        delays := delays + [Pow2(i) * 500];
        assert delays == Backoffs(i + 1);
      }
      i := i + 1;
    }
    result := Rejected(if lastError.Some? then lastError.value else RetriesExhausted);
  }

  // ---------------------------------------------------------------------
  // Properties of a run
  // ---------------------------------------------------------------------

  /** The loop stops at the first attempt that is not retried. */
  lemma StopsAtFirstDecisive(classify: Attempt -> Verdict, network: nat -> Attempt, retries: int, i: nat)
    requires i < retries && !classify(network(i)).TryAgain?
    requires forall j :: 0 <= j < i ==> classify(network(j)).TryAgain?
    ensures var v := classify(network(i));
            Expected(classify, network, retries)
            == Trace(if v.Deliver? then Resolved(v.response) else Rejected(v.error), Backoffs(i), i + 1)
  {
    FirstDecisiveAt(classify, network, retries, i);
  }

  /**
   * When every attempt is retried, all `retries` fetches are made and the run
   * rejects with the last attempt's failure, or with the generic error when
   * `retries <= 0`.
   */
  lemma ExhaustionRejectsWithLastFailure(classify: Attempt -> Verdict, network: nat -> Attempt, retries: int)
    requires forall j :: 0 <= j < retries ==> classify(network(j)).TryAgain?
    ensures retries <= 0 ==> Expected(classify, network, retries) == Trace(Rejected(RetriesExhausted), [], 0)
    ensures retries > 0 ==> Expected(classify, network, retries)
                            == Trace(Rejected(classify(network(retries - 1)).error), Backoffs(retries - 1), retries)
  {
  }

  /** The source's classification never stops a run with an error. */
  lemma ClassifyNeverAborts(a: Attempt)
    ensures !Classify(a).Abort?
  {
  }

  /**
   * `fetchWithRetry` resolves exactly when some attempt within the budget
   * gets a response it hands back; then that response is the first such one.
   */
  lemma ResolvesIffSomeAttemptDelivers(network: nat -> Attempt, retries: int)
    ensures Expected(Classify, network, retries).result.Resolved?
            <==> exists i :: 0 <= i < retries && Classify(network(i)).Deliver?
    ensures Expected(Classify, network, retries).result.Resolved? ==>
              var t := Expected(Classify, network, retries);
              Classify(network(t.attempts - 1)) == Deliver(t.result.response)
              && forall j :: 0 <= j < t.attempts - 1 ==> Classify(network(j)).TryAgain?
  {
    var r := FirstDecisive(Classify, network, retries, 0);
    if r.Some? {
      ClassifyNeverAborts(network(r.value));
    } else if exists i :: 0 <= i < retries && Classify(network(i)).Deliver? {
      var i :| 0 <= i < retries && Classify(network(i)).Deliver?;
      assert Classify(network(i)).TryAgain?;
    }
  }

  /** A client error other than 404 and 429 is handed back after one attempt. */
  lemma ClientErrorHandedBack(network: nat -> Attempt, retries: int, status: nat, statusText: string)
    requires retries >= 1
    requires network(0) == Answered(Response(status, statusText))
    requires 400 <= status < 500 && status != 404 && status != 429
    ensures Expected(Classify, network, retries) == Trace(Resolved(Response(status, statusText)), [], 1)
  {
    StopsAtFirstDecisive(Classify, network, retries, 0);
  }

  /** A success (2xx, including 206) or a 302 is handed back at once. */
  lemma SuccessHandedBack(network: nat -> Attempt, retries: int, status: nat, statusText: string)
    requires retries >= 1
    requires network(0) == Answered(Response(status, statusText))
    requires IsOk(status) || status == 302
    ensures Expected(Classify, network, retries) == Trace(Resolved(Response(status, statusText)), [], 1)
  {
    StopsAtFirstDecisive(Classify, network, retries, 0);
  }

  /**
   * Against an upstream that always answers 503, the default budget makes
   * three attempts, sleeps 500 ms and 1000 ms, and rejects with the 503.
   */
  lemma AlwaysUnavailable(network: nat -> Attempt, statusText: string)
    requires forall i :: network(i) == Answered(Response(503, statusText))
    ensures Expected(Classify, network, DefaultRetries)
            == Trace(Rejected(HttpError(503, statusText)), [500, 1000], 3)
  {
    ExhaustionRejectsWithLastFailure(Classify, network, DefaultRetries);
    assert Backoffs(2) == [500, 1000] by {
      assert Pow2(1) == 2;
    }
  }

  /**
   * As written, a 404 is retried: a 404 followed by a 200 resolves with the
   * 200 after a 500 ms sleep and two fetches.
   */
  lemma NotFoundIsRetried(network: nat -> Attempt, retries: int, notFoundText: string, okText: string)
    requires retries >= 2
    requires network(0) == Answered(Response(404, notFoundText))
    requires network(1) == Answered(Response(200, okText))
    ensures Expected(Classify, network, retries) == Trace(Resolved(Response(200, okText)), [500], 2)
  {
    StopsAtFirstDecisive(Classify, network, retries, 1);
    assert Backoffs(1) == [500];
  }

  /** As written, an upstream that always answers 404 uses the whole budget. */
  lemma NotFoundExhaustsBudget(network: nat -> Attempt, retries: int)
    requires retries >= 1
    requires forall i :: IsNotFound(network(i))
    ensures Expected(Classify, network, retries) == Trace(Rejected(NotFound), Backoffs(retries - 1), retries)
  {
    ExhaustionRejectsWithLastFailure(Classify, network, retries);
  }

  /**
   * With the intended classification a 404 ends the run at that attempt,
   * whatever the budget: a 404 on the first attempt is exactly one fetch.
   */
  lemma IntendedNotFoundFailsFast(network: nat -> Attempt, retries: int, i: nat)
    requires i < retries && IsNotFound(network(i))
    requires forall j :: 0 <= j < i ==> ClassifyIntended(network(j)).TryAgain?
    ensures Expected(ClassifyIntended, network, retries) == Trace(Rejected(NotFound), Backoffs(i), i + 1)
  {
    StopsAtFirstDecisive(ClassifyIntended, network, retries, i);
  }

  /** Where no attempt within the budget is a 404, the two classifications agree. */
  lemma IntendedAgreesAwayFromNotFound(network: nat -> Attempt, retries: int)
    requires forall j :: 0 <= j < retries ==> !IsNotFound(network(j))
    ensures Expected(ClassifyIntended, network, retries) == Expected(Classify, network, retries)
  {
    FirstDecisiveAgrees(network, retries, 0);
  }

  lemma {:induction false} FirstDecisiveAgrees(network: nat -> Attempt, retries: int, from: nat)
    requires forall j :: from <= j < retries ==> !IsNotFound(network(j))
    ensures FirstDecisive(ClassifyIntended, network, retries, from) == FirstDecisive(Classify, network, retries, from)
    decreases retries - from
  {
    if from < retries {
      FirstDecisiveAgrees(network, retries, from + 1);
    }
  }
}
