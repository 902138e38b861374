/**
 The deliveries table and what each SQL function of the work queue writes into one row.
 The clock now() is a parameter.
 */
module Deliveries {
  import opened Basics
  import opened Responses

  type Id = int

  datatype Status = Ready | Processing | AwaitingAsync | Done | Failed

  datatype Delivery = Delivery(
    requestId: int,
    serverId: int,
    status: Status,
    attempts: int,
    nextRunAt: Instant,
    retryAfterAt: Option<Instant>,
    lastError: Option<string>,
    statusCode: Option<int>,
    responseBody: Option<string>,
    priority: int,
    sentAt: Option<Instant>,
    updatedAt: Instant,
    maxAttempts: Option<int>,
    asyncJobId: Option<string>,
    asyncStatus: Option<string>,
    asyncResponse: Option<Payload>,
    asyncPollUrl: Option<string>,
    asyncLastPolled: Option<Instant>)
  {
    predicate Terminal() {
      status.Done? || status.Failed?
    }

    /** The delivery went through start_async_delivery. */
    predicate WentAsync() {
      asyncJobId.Some?
    }
  }

  type Table = map<Id, Delivery>

  /** A row as the table defaults and the expander leave it. */
  predicate IsFresh(d: Delivery) {
    d.status.Ready? && d.attempts == 0 && d.asyncJobId.None? && d.sentAt.None? && d.lastError.None?
  }

  const DEFAULT_MAX_ATTEMPTS := 8
  const BACKOFF_MIN_SECONDS := 2
  const BACKOFF_MAX_SECONDS := 120

  // ---------------------------------------------------------------- backoff

  function Pow2(n: nat): (p: int)
    ensures p >= 1
  {
    if n == 0 then 1 else 2 * Pow2(n - 1)
  }

  function BackoffSeconds(attempts: int, minSeconds: int, maxSeconds: int): int {
    Min(minSeconds * Pow2(Max(attempts, 1)), maxSeconds)
  }

  // ---------------------------------------------------------------- row functions

  /** claim_deliveries, for one picked row. */
  function Claimed(d: Delivery, now: Instant): Delivery {
    d.(status := Processing, updatedAt := now)
  }

  /** claim_async_polls, for one picked row: neither status nor nextRunAt changes. */
  function Touched(d: Delivery, now: Instant): Delivery {
    d.(updatedAt := now)
  }

  /** start_async_delivery. */
  function Started(d: Delivery, jobId: string, pollUrl: string, initial: string, delaySeconds: int,
                   now: Instant): Delivery {
    d.(asyncJobId := Some(jobId),
       asyncPollUrl := if pollUrl == "" then None else Some(pollUrl),
       asyncStatus := Some(initial),
       status := AwaitingAsync,
       nextRunAt := now + delaySeconds * SECOND,
       sentAt := Some(d.sentAt.GetOr(now)),
       updatedAt := now)
  }

  /** update_async_status; the guards read the status string, never the row. */
  function AsyncUpdated(d: Delivery, status: string, response: Option<Payload>,
                        successValues: seq<string>, failValues: seq<string>, pollAgain: int, now: Instant): Delivery {
    var noted := d.(asyncStatus := Some(status), asyncResponse := response, updatedAt := now);
    if status in successValues then
      noted.(status := Done, statusCode := Some(200), lastError := None, sentAt := Some(d.sentAt.GetOr(now)))
    else if status in failValues then
      var message := if response.Some? then response.value.message else None;
      noted.(status := Failed, statusCode := Some(500), lastError := Some(message.GetOr("async failed")))
    else
      noted.(asyncLastPolled := Some(now), nextRunAt := now + pollAgain * SECOND)
  }

  /** finalize_delivery. */
  function Finalized(d: Delivery, ok: bool, statusCode: int, body: string, error: string, retryAt: Option<Instant>,
                     defaultMax: int, minSeconds: int, maxSeconds: int, now: Instant): Delivery {
    if ok then
      d.(status := Done, statusCode := Some(statusCode), responseBody := Some(body), lastError := None,
         sentAt := Some(d.sentAt.GetOr(now)), updatedAt := now)
    else
      var exhausted := d.attempts + 1 >= d.maxAttempts.GetOr(defaultMax);
      var next := retryAt.GetOr(now + BackoffSeconds(d.attempts, minSeconds, maxSeconds) * SECOND);
      d.(attempts := d.attempts + 1,
         status := if exhausted then Failed else Ready,
         statusCode := Some(statusCode),
         responseBody := Some(body),
         lastError := Some(if |error| <= 2000 then error else error[..2000]),
         nextRunAt := if exhausted then now else next,
         retryAfterAt := retryAt,
         updatedAt := now)
  }

  // ---------------------------------------------------------------- table functions

  /** UPDATE ... WHERE id = ANY(ids), writing Claimed. */
  function ClaimRows(rows: Table, ids: set<Id>, now: Instant): Table {
    map id | id in rows :: if id in ids then Claimed(rows[id], now) else rows[id]
  }

  function TouchRows(rows: Table, ids: set<Id>, now: Instant): Table {
    map id | id in rows :: if id in ids then Touched(rows[id], now) else rows[id]
  }

  /** UPDATE ... WHERE id = id: no row, no change. */
  function Write(rows: Table, id: Id, f: Delivery -> Delivery): Table {
    if id in rows then rows[id := f(rows[id])] else rows
  }

  /** The row a worker leaves after a send: the one SQL call that Decide chose. */
  function AfterSend(d: Delivery, outcome: Outcome, pollAgain: int, now: Instant): Delivery {
    match outcome
    case StartAsync(jobId, pollUrl) => Started(d, jobId, pollUrl, "queued", pollAgain, now)
    case Finalize(ok, statusCode, body, error, retryAt) =>
      Finalized(d, ok, statusCode, body, error, retryAt,
                DEFAULT_MAX_ATTEMPTS, BACKOFF_MIN_SECONDS, BACKOFF_MAX_SECONDS, now)
  }

  /** The row a worker leaves after a poll. */
  function AfterPoll(d: Delivery, resp: PollResponse, pollAgain: int, now: Instant): Delivery {
    var u := HandlePoll(resp, pollAgain);
    AsyncUpdated(d, u.status, u.payload, SUCCESS_VALUES, FAIL_VALUES, u.pollAgain, now)
  }

  /**
   From the response to the row: which answers end a delivery, which start a job, and which send
   it back, and until when. No single answer fails it; only the last permitted attempt does.
   */
  lemma SendResult(d: Delivery, useAsync: bool, resp: SendResponse, pollAgain: int, now: Instant)
    ensures var d' := AfterSend(d, Decide(useAsync, resp), pollAgain, now);
      var accepted := resp.Http? && useAsync && resp.status == 202;
      var job := accepted && exists i | 0 <= i < |resp.location| :: resp.location[i] != '/';
      var good := resp.Http? && 200 <= resp.status < 300 && !accepted;
      var last := d.attempts + 1 >= d.maxAttempts.GetOr(8);
      var hint := if resp.Http? && (accepted || resp.status == 429 || resp.status >= 500) then resp.retryAfter else None;
      && d'.status == (if job then AwaitingAsync else if good then Done else if last then Failed else Ready)
      && d'.attempts == d.attempts + (if job || good then 0 else 1)
      && d'.nextRunAt == (if job then now + pollAgain * SECOND
                          else if good then d.nextRunAt
                          else if last then now
                          else if hint.Some? then hint.value
                          else now + Min(2 * Pow2(Max(d.attempts, 1)), 120) * SECOND)
      && d'.retryAfterAt == (if job || good then d.retryAfterAt else hint)
  {
    SendOutcome(useAsync, resp);
  }

  /** What a send leaves in the other columns. */
  lemma SendColumns(d: Delivery, useAsync: bool, resp: SendResponse, pollAgain: int, now: Instant)
    ensures var d' := AfterSend(d, Decide(useAsync, resp), pollAgain, now);
      var accepted := resp.Http? && useAsync && resp.status == 202;
      var job := accepted && exists i | 0 <= i < |resp.location| :: resp.location[i] != '/';
      var good := resp.Http? && 200 <= resp.status < 300 && !accepted;
      && d'.sentAt == (if !job && !good then d.sentAt else if d.sentAt.Some? then d.sentAt else Some(now))
      && d'.lastError == (if job then d.lastError
                          else if good then None
                          else if resp.TransportError? then Some(resp.message[..Min(2000, |resp.message|)])
                          else if accepted then Some("missing async job id")
                          else if resp.status == 429 || resp.status >= 500 then Some("retryable")
                          else Some("terminal"))
      && d'.statusCode == (if job then d.statusCode else if resp.Http? then Some(resp.status) else Some(0))
      && d'.responseBody == (if job then d.responseBody else if resp.Http? then Some(resp.body) else Some(""))
      && d'.asyncJobId == (if job then Some(JobIdOf(resp.location)) else d.asyncJobId)
      && d'.asyncPollUrl == (if job then Some(resp.location) else d.asyncPollUrl)
      && d'.asyncStatus == (if job then Some("queued") else d.asyncStatus)
      && d'.asyncResponse == d.asyncResponse && d'.asyncLastPolled == d.asyncLastPolled && d'.updatedAt == now
      && d'.requestId == d.requestId && d'.serverId == d.serverId
      && d'.priority == d.priority && d'.maxAttempts == d.maxAttempts
  {
    SendOutcome(useAsync, resp);
    if resp.TransportError? && |resp.message| <= 2000 {
      assert resp.message[..|resp.message|] == resp.message;
    }
  }

  /** The words of a poll answer decide: three end the delivery well, two badly, and no others end it. */
  lemma PollVerdict(d: Delivery, resp: PollResponse, pollAgain: int, now: Instant)
    ensures var d' := AfterPoll(d, resp, pollAgain, now);
      var word := if resp.Object? && resp.status.Text? then resp.status.upper else "";
      var good := word == "COMPLETED" || word == "SUCCESS" || word == "OK";
      var bad := word == "FAILED" || word == "ERROR";
      && (Classify(resp).Succeeded? <==> good) && (Classify(resp).Broken? <==> bad)
      && d'.status == (if good then Done else if bad then Failed else d.status)
      && d'.nextRunAt == (if good || bad then d.nextRunAt else now + pollAgain * SECOND)
      && d'.asyncLastPolled == (if good || bad then d.asyncLastPolled else Some(now))
      && d'.asyncStatus == Some(if good then "COMPLETED" else if bad then "FAILED"
                                else if word == "QUEUED" then "QUEUED" else "RUNNING")
      && d'.attempts == d.attempts && d'.maxAttempts == d.maxAttempts && d'.asyncJobId == d.asyncJobId
      && d'.requestId == d.requestId
  {
  }

  /** What a poll leaves in the other columns. */
  lemma PollColumns(d: Delivery, resp: PollResponse, pollAgain: int, now: Instant)
    ensures var d' := AfterPoll(d, resp, pollAgain, now);
      var message := if resp.Object? then resp.payload.message else None;
      && d'.statusCode == (match Classify(resp)
                           case Succeeded => Some(200) case Broken => Some(500) case Unfinished => d.statusCode)
      && d'.lastError == (match Classify(resp)
                          case Succeeded => None
                          case Broken => Some(if message.Some? then message.value else "async failed")
                          case Unfinished => d.lastError)
      && d'.sentAt == (if Classify(resp).Succeeded? && d.sentAt.None? then Some(now) else d.sentAt)
      && d'.asyncResponse == (match resp
                              case PollError(error) => Some(error)
                              case NotAnObject => None
                              case Object(_, payload) => Some(payload))
      && d'.responseBody == d.responseBody && d'.retryAfterAt == d.retryAfterAt && d'.updatedAt == now
      && d'.serverId == d.serverId && d'.priority == d.priority && d'.asyncPollUrl == d.asyncPollUrl
  {
    PollVerdict(d, resp, pollAgain, now);
  }

  // ---------------------------------------------------------------- backoff arithmetic

  lemma {:induction false} Pow2Grows(m: nat, n: nat)
    requires m <= n
    ensures Pow2(m) <= Pow2(n)
    decreases n
  {
    if m == n {
    } else {
      Pow2Grows(m, n - 1);
    }
  }

  lemma MulMonotone(k: int, x: int, y: int)
    requires k >= 0 && x <= y
    ensures k * x <= k * y
  {
  }

  /** Pow2 is exponentiation of two. */
  lemma {:induction false} Pow2Adds(m: nat, n: nat)
    ensures Pow2(m + n) == Pow2(m) * Pow2(n)
    ensures Pow2(0) == 1 && Pow2(1) == 2
  {
    if n == 0 {
    } else {
      Pow2Adds(m, n - 1);
      assert Pow2(m + n) == 2 * Pow2(m + (n - 1));
    }
  }

  /** Every delay lies between LEAST(2 * min, max) and max, and delays never shrink as attempts grow. */
  lemma BackoffBounds(a: int, b: int, minSeconds: int, maxSeconds: int)
    requires a <= b && minSeconds >= 0
    ensures Min(2 * minSeconds, maxSeconds) <= BackoffSeconds(a, minSeconds, maxSeconds)
    ensures BackoffSeconds(a, minSeconds, maxSeconds) <= BackoffSeconds(b, minSeconds, maxSeconds) <= maxSeconds
  {
    var m, n := Max(a, 1), Max(b, 1);
    Pow2Grows(m, n);
    Pow2Grows(1, m);
    assert Pow2(1) == 2 * Pow2(0) == 2;
    MulMonotone(minSeconds, 2, Pow2(m));
    MulMonotone(minSeconds, Pow2(m), Pow2(n));
  }

  /** The summed delays after n failures that were rescheduled without a Retry-After. */
  function TotalBackoff(n: nat): int {
    if n == 0 then 0
    else TotalBackoff(n - 1) + BackoffSeconds(n - 1, BACKOFF_MIN_SECONDS, BACKOFF_MAX_SECONDS)
  }

  lemma Pow2Table()
    ensures Pow2(1) == 2 && Pow2(2) == 4 && Pow2(3) == 8 && Pow2(4) == 16
    ensures Pow2(5) == 32 && Pow2(6) == 64 && Pow2(7) == 128
  {
  }

  lemma {:induction false} TotalBackoffClosedForm(n: nat)
    requires n >= 1
    ensures n <= 6 ==> TotalBackoff(n) == Pow2(n + 1)
    ensures n >= 6 ==> TotalBackoff(n) == 128 + 120 * (n - 6)
  {
    if n == 1 {
      assert Pow2(2) == 2 * Pow2(1) == 4;
      assert TotalBackoff(1) == TotalBackoff(0) + 2 * Pow2(1);
    } else {
      TotalBackoffClosedForm(n - 1);
      Pow2Table();
      if n > 6 {
        Pow2Grows(6, n - 1);
      }
    }
  }
}
