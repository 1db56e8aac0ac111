/**
 * Delivery of the completion webhook (`send_completion_webhook` in
 * services/webhook_service.py): the payload taken from the request record,
 * the headers with an optional keyed signature, the POST, and the
 * `sent`/`failed` outcome with Celery's bounded, exponentially delayed retry.
 */
module Webhook {
  import opened Wrappers
  import opened Models
  import opened Report

  /** `max_retries=3` of the task decorator. */
  const MaxRetries: nat := 3

  function Pow2(n: nat): (p: nat)
    ensures p >= 1
  {
    if n == 0 then 1 else 2 * Pow2(n - 1)
  }

  /** `60 * (2 ** retry_count)` seconds. */
  function Backoff(retries: nat): nat {
    60 * Pow2(retries)
  }

  /** The delay starts at a minute and doubles with every retry: 60, 120, 240 seconds. */
  lemma BackoffSchedule(retries: nat)
    ensures Backoff(0) == 60
    ensures Backoff(retries + 1) == 2 * Backoff(retries)
    ensures [Backoff(0), Backoff(1), Backoff(2)] == [60, 120, 240]
  {
  }

  /** A hexadecimal HMAC-SHA-256 digest: always 64 characters, hence never empty. */
  type Digest = s: string | |s| == 64 witness "0000000000000000000000000000000000000000000000000000000000000000"

  /** The JSON body of the POST. */
  datatype Payload = Payload(
    requestId: RequestId,
    status: RequestStatus,
    totalImages: nat,
    processedImages: nat,
    completionTime: string,
    resultsCsvUrl: string)

  datatype Header = Header(name: string, value: string)

  /** `hmac.new(secret, json.dumps(payload), sha256).hexdigest()` when a secret is configured. */
  function Signature(secret: string, payload: Payload, sign: (string, Payload) -> Digest): Option<Digest> {
    if secret != [] then Some(sign(secret, payload)) else None
  }

  /** The header dictionary: the content type, then the signature when there is a truthy one. */
  function Headers(secret: string, payload: Payload, sign: (string, Payload) -> Digest): seq<Header> {
    var signature := Signature(secret, payload, sign);
    [Header("Content-Type", "application/json")]
      + (if signature.Some? && signature.value != [] then [Header("X-Webhook-Signature", signature.value)] else [])
  }

  /**
   * The content type is always sent first; the signature header is present
   * exactly when a secret is configured, and then carries the keyed digest of
   * the payload.
   */
  lemma HeadersSpec(secret: string, payload: Payload, sign: (string, Payload) -> Digest)
    ensures var hs := Headers(secret, payload, sign);
      && |hs| >= 1 && hs[0] == Header("Content-Type", "application/json")
      && (|hs| == 2 <==> secret != [])
      && |hs| <= 2
      && (|hs| == 2 ==> hs[1] == Header("X-Webhook-Signature", sign(secret, payload)))
  {
    var d := sign(secret, payload);
    assert |d| == 64;
  }

  /** What the POST returned: a status code, or a `requests` transport error (timeout, refused connection). */
  datatype Response = Responded(statusCode: int) | TransportError

  /** `raise_for_status()` lets the answer through: a response whose code is not 4xx or 5xx. */
  predicate Accepts(response: Response) {
    response.Responded? && !(400 <= response.statusCode < 600)
  }

  /** One attempt's effect on the task: delivered, retried after a countdown, or out of retries. */
  datatype Attempt = Delivered | RetryAfter(countdown: nat) | Exhausted

  /** The `try`/`except` of one attempt made as the `retries`-th retry. */
  function Settle(response: Response, retries: nat): Attempt {
    if Accepts(response) then Delivered
    else if retries < MaxRetries then RetryAfter(Backoff(retries))
    else Exhausted
  }

  /** The status one attempt writes: `sent` when delivered, otherwise `failed` (before any retry). */
  function StatusAfter(a: Attempt): WebhookStatus {
    if a.Delivered? then Sent else WebhookStatus.Failed
  }

  /** The POST the task makes. */
  datatype Post = Post(url: string, headers: seq<Header>, payload: Payload)

  /** How one run of the task ends. */
  datatype DeliveryOutcome =
    /** Unknown request or no webhook locator: nothing is sent. */
    | Skipped
    | Attempted(post: Post, attempt: Attempt)

  /** The retry the task queues after an attempt: the next retry number with its countdown. */
  function RetryTasks(rid: RequestId, retries: nat, a: Attempt): seq<Task> {
    if a.RetryAfter? then [SendWebhookTask(rid, retries + 1, a.countdown)] else []
  }

  /**
   * `send_completion_webhook` run as its `retries`-th retry, `response` being
   * what the POST gets. An unknown request or one without a locator is left
   * alone. Otherwise the payload carries the record's id, status and counters,
   * the completion time and the results locator; the headers are `Headers`;
   * the webhook status becomes `sent` or `failed`, and a failed attempt below
   * the retry limit queues the next retry after `Backoff(retries)` seconds.
   */
  method SendCompletionWebhook(db: Store, rid: RequestId, retries: nat, secret: string, baseUrl: string,
                               completionTime: string, sign: (string, Payload) -> Digest, response: Response)
    returns (outcome: DeliveryOutcome)
    requires db.Valid()
    modifies db
    ensures db.Valid()
    ensures !(rid in old(db.requests) && HasWebhookUrl(old(db.requests)[rid])) ==>
      outcome == Skipped && db.requests == old(db.requests) && db.queue == old(db.queue)
    ensures rid in old(db.requests) && HasWebhookUrl(old(db.requests)[rid]) ==>
      var r := old(db.requests)[rid];
      var payload := Payload(rid, r.status, r.totalImages, r.processedImages, completionTime, ResultsUrl(baseUrl, rid));
      && outcome == Attempted(Post(r.webhookUrl.value, Headers(secret, payload, sign), payload), Settle(response, retries))
      && db.requests == old(db.requests)[rid := r.(webhookStatus := Some(StatusAfter(Settle(response, retries))))]
      && db.queue == old(db.queue) + RetryTasks(rid, retries, Settle(response, retries))
    ensures db.products == old(db.products) && db.images == old(db.images)
    ensures db.nextProductId == old(db.nextProductId) && db.nextImageId == old(db.nextImageId)
  {
    if rid !in db.requests || !HasWebhookUrl(db.requests[rid]) {
      return Skipped;
    }
    var request := db.requests[rid];
    var rows, csvUrl := GenerateResultsCsv(db, rid, baseUrl);
    var payload := Payload(rid, request.status, request.totalImages, request.processedImages, completionTime, csvUrl);
    var headers := Headers(secret, payload, sign);
    var post := Post(request.webhookUrl.value, headers, payload);
    if Accepts(response) {
      db.requests := db.requests[rid := request.(webhookStatus := Some(Sent))];
      return Attempted(post, Delivered);
    }
    db.requests := db.requests[rid := request.(webhookStatus := Some(WebhookStatus.Failed))];
    if retries < MaxRetries {
      var backoff := 60 * Pow2(retries);
      db.queue := db.queue + [SendWebhookTask(rid, retries + 1, backoff)];
      return Attempted(post, RetryAfter(backoff));
    }
    return Attempted(post, Exhausted);
  }

  // ---------------------------------------------------------------------------
  // The chain of retries
  // ---------------------------------------------------------------------------

  /**
   * The number of POSTs a chain of tasks makes from retry number `retries` on,
   * `responses[i]` answering the i-th of them (the chain is cut short when the
   * list runs out).
   */
  function AttemptCount(responses: seq<Response>, retries: nat): nat
    decreases |responses|
  {
    if responses == [] then 0
    else if Settle(responses[0], retries).RetryAfter? then 1 + AttemptCount(responses[1..], retries + 1)
    else 1
  }

  /** The countdowns of the retries the chain queues. */
  function Countdowns(responses: seq<Response>, retries: nat): seq<nat>
    decreases |responses|
  {
    if responses == [] then []
    else
      match Settle(responses[0], retries)
      case RetryAfter(c) => [c] + Countdowns(responses[1..], retries + 1)
      case _ => []
  }

  /** The webhook status the chain leaves once its answers run out. */
  function FinalStatus(responses: seq<Response>, retries: nat): Option<WebhookStatus>
    decreases |responses|
  {
    if responses == [] then None
    else
      var a := Settle(responses[0], retries);
      if a.RetryAfter? && |responses| > 1 then FinalStatus(responses[1..], retries + 1)
      else Some(StatusAfter(a))
  }

  /** A chain started as retry `retries <= 3` makes at most `4 - retries` attempts: at most 4 from the first run. */
  lemma {:induction false} AttemptsBounded(responses: seq<Response>, retries: nat)
    requires retries <= MaxRetries
    ensures AttemptCount(responses, retries) <= MaxRetries + 1 - retries
    decreases |responses|
  {
    if responses != [] && Settle(responses[0], retries).RetryAfter? {
      AttemptsBounded(responses[1..], retries + 1);
    }
  }

  /**
   * When every POST fails, the first run and its three retries are all made,
   * waiting 60, 120 and 240 seconds in between, and the status ends `failed`
   * with no further task.
   */
  lemma {:induction false} AllAttemptsFail(responses: seq<Response>)
    requires |responses| >= MaxRetries + 1
    requires forall i :: 0 <= i < |responses| ==> !Accepts(responses[i])
    ensures AttemptCount(responses, 0) == MaxRetries + 1
    ensures Countdowns(responses, 0) == [60, 120, 240]
    ensures FinalStatus(responses, 0) == Some(WebhookStatus.Failed)
  {
    var r1 := responses[1..];
    var r2 := r1[1..];
    var r3 := r2[1..];
    assert r1[0] == responses[1] && r2[0] == responses[2] && r3[0] == responses[3];
    assert Settle(r3[0], 3) == Exhausted;
    assert AttemptCount(r3, 3) == 1 && Countdowns(r3, 3) == [] && FinalStatus(r3, 3) == Some(WebhookStatus.Failed);
    assert Settle(r2[0], 2) == RetryAfter(240);
    assert AttemptCount(r2, 2) == 2 && Countdowns(r2, 2) == [240] && FinalStatus(r2, 2) == Some(WebhookStatus.Failed);
    assert Settle(r1[0], 1) == RetryAfter(120);
    assert AttemptCount(r1, 1) == 3 && Countdowns(r1, 1) == [120, 240] && FinalStatus(r1, 1) == Some(WebhookStatus.Failed);
    assert Settle(responses[0], 0) == RetryAfter(60);
  }

  /**
   * A chain whose first accepted POST is attempt `k` within the limit is
   * `sent` after exactly `k + 1` attempts.
   */
  lemma {:induction false} FirstAcceptedDelivers(responses: seq<Response>, retries: nat, k: nat)
    requires k < |responses| && retries + k <= MaxRetries
    requires Accepts(responses[k])
    requires forall i :: 0 <= i < k ==> !Accepts(responses[i])
    ensures AttemptCount(responses, retries) == k + 1
    ensures FinalStatus(responses, retries) == Some(Sent)
    decreases k
  {
    if k > 0 {
      assert !Accepts(responses[0]);
      FirstAcceptedDelivers(responses[1..], retries + 1, k - 1);
    }
  }
}
