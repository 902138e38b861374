/**
 What a worker does with the answer of a remote server: the branching of handleSendResty
 and handlePollResty, with the HTTP exchange itself replaced by the value it returned.
 */
module Responses {
  import opened Basics

  // ---------------------------------------------------------------- sends

  /** A failed exchange, or the parts of an HTTP response the handler looks at. */
  datatype SendResponse =
    | TransportError(message: string)
    | Http(status: int, location: string, retryAfter: Option<Instant>, body: string)

  /** The one SQL call a send ends in. */
  datatype Outcome =
    | StartAsync(jobId: string, pollUrl: string)
    | Finalize(ok: bool, statusCode: int, body: string, error: string, retryAt: Option<Instant>)

  function TrimRightSlashes(s: string): string {
    if |s| > 0 && s[|s| - 1] == '/' then TrimRightSlashes(s[..|s| - 1]) else s
  }

  /** What follows the last slash of s, or all of s when it has none. */
  function LastSegment(s: string): string {
    if |s| == 0 || s[|s| - 1] == '/' then "" else LastSegment(s[..|s| - 1]) + [s[|s| - 1]]
  }

  function JobIdOf(location: string): string {
    LastSegment(TrimRightSlashes(location))
  }

  function Decide(useAsync: bool, resp: SendResponse): Outcome {
    match resp
    case TransportError(message) => Finalize(false, 0, "", message, None)
    case Http(status, location, retryAfter, body) =>
      if useAsync && status == 202 then
        if JobIdOf(location) == "" then
          Finalize(false, status, body, "missing async job id", retryAfter)
        else
          StartAsync(JobIdOf(location), location)
      else if 200 <= status < 300 then
        Finalize(true, status, body, "", None)
      else if status == 429 || status >= 500 then
        Finalize(false, status, body, "retryable", retryAfter)
      else
        Finalize(false, status, body, "terminal", None)
  }

  predicate NoSlash(s: string) {
    forall i | 0 <= i < |s| :: s[i] != '/'
  }

  predicate OnlySlashes(s: string) {
    forall i | 0 <= i < |s| :: s[i] == '/'
  }

  /** The job id is missing exactly when the Location header has no character but slashes. */
  lemma {:induction false} JobIdMissingIff(location: string)
    ensures JobIdOf(location) == "" <==> forall i | 0 <= i < |location| :: location[i] == '/'
  {
    if |location| == 0 {
    } else {
      var n := |location| - 1;
      if location[n] == '/' {
        JobIdMissingIff(location[..n]);
        assert location == location[..n] + [location[n]];
      } else {
        assert |JobIdOf(location)| > 0;
      }
    }
  }

  lemma {:induction false} TrimmedSplit(s: string) returns (slashes: string)
    ensures OnlySlashes(slashes) && TrimRightSlashes(s) + slashes == s
    ensures TrimRightSlashes(s) != "" ==> TrimRightSlashes(s)[|TrimRightSlashes(s)| - 1] != '/'
  {
    if |s| > 0 && s[|s| - 1] == '/' {
      var rest := TrimmedSplit(s[..|s| - 1]);
      slashes := rest + "/";
      assert s == s[..|s| - 1] + "/";
    } else {
      slashes := "";
    }
  }

  lemma {:induction false} SegmentSplit(s: string) returns (front: string)
    ensures NoSlash(LastSegment(s)) && s == front + LastSegment(s)
    ensures front == "" || front[|front| - 1] == '/'
  {
    if |s| == 0 || s[|s| - 1] == '/' {
      front := s;
    } else {
      front := SegmentSplit(s[..|s| - 1]);
      assert s == s[..|s| - 1] + [s[|s| - 1]];
    }
  }

  /** The job id is the last path segment of the Location header, trailing slashes aside. */
  lemma JobIdIsLastSegment(location: string) returns (front: string, slashes: string)
    ensures location == front + JobIdOf(location) + slashes
    ensures forall i | 0 <= i < |JobIdOf(location)| :: JobIdOf(location)[i] != '/'
    ensures forall i | 0 <= i < |slashes| :: slashes[i] == '/'
    ensures front == "" || front[|front| - 1] == '/'
  {
    slashes := TrimmedSplit(location);
    front := SegmentSplit(TrimRightSlashes(location));
  }

  /**
   Which call a send ends in. The server's Retry-After instant is handed on, as it is, in two
   cases only: overload, and an accepted job that names no id.
   */
  lemma SendOutcome(useAsync: bool, resp: SendResponse)
    ensures var o := Decide(useAsync, resp);
      var accepted := resp.Http? && useAsync && resp.status == 202;
      && (o.StartAsync? <==> accepted && !OnlySlashes(resp.location))
      && (o.Finalize? && o.ok <==> resp.Http? && 200 <= resp.status < 300 && !accepted)
      && (o.Finalize? ==>
            o.retryAt == if resp.Http? && (accepted || resp.status == 429 || resp.status >= 500) then resp.retryAfter
                         else None)
  {
    if resp.Http? {
      JobIdMissingIff(resp.location);
    }
  }

  /** A failed send carries the server's own instant exactly when there is one and it is honoured. */
  lemma RetryAfterHonouredIff(useAsync: bool, resp: SendResponse, at: Instant)
    ensures var o := Decide(useAsync, resp);
      (o.Finalize? && o.retryAt == Some(at))
      <==> (resp.Http? && resp.retryAfter == Some(at)
            && ((useAsync && resp.status == 202 && OnlySlashes(resp.location))
                || (resp.status == 429 || resp.status >= 500)))
  {
    SendOutcome(useAsync, resp);
  }

  // ---------------------------------------------------------------- polls

  /** The status member of a poll answer; a string is held as strings.ToUpper leaves it. */
  datatype StatusMember = Absent | NotText | Text(upper: string)

  /** The response stored beside a delivery, with its message member. */
  datatype Payload = Payload(text: string, message: Option<string>)

  /** A failed poll, a body that is no JSON object, or an object. */
  datatype PollResponse =
    | PollError(error: Payload)
    | NotAnObject
    | Object(status: StatusMember, payload: Payload)

  datatype Verdict = Succeeded | Broken | Unfinished

  const SUCCESS_VALUES: seq<string> := ["COMPLETED", "SUCCESS", "OK"]
  const FAIL_VALUES: seq<string> := ["FAILED", "ERROR"]

  /** Reading the answer in one go, without the two stages. */
  function Classify(resp: PollResponse): Verdict {
    if !resp.Object? || !resp.status.Text? then Unfinished
    else match resp.status.upper
      case "COMPLETED" => Succeeded
      case "SUCCESS" => Succeeded
      case "OK" => Succeeded
      case "FAILED" => Broken
      case "ERROR" => Broken
      case _ => Unfinished
  }

  /** The three results (status, terminalSuccess, terminalFail) of mapDhis2Job. */
  datatype JobStatus = JobStatus(status: string, success: string, fail: string)

  function MapDhis2Job(resp: PollResponse): JobStatus {
    if resp.Object? && resp.status.Text? then
      var u := resp.status.upper;
      if u == "COMPLETED" || u == "SUCCESS" || u == "OK" then JobStatus("", "COMPLETED", "")
      else if u == "FAILED" || u == "ERROR" then JobStatus("", "", "FAILED")
      else if u == "RUNNING" || u == "QUEUED" then JobStatus(u, "", "")
      else JobStatus("RUNNING", "", "")
    else
      JobStatus("RUNNING", "", "")
  }

  /** The arguments with which a poll calls update_async_status. */
  datatype AsyncUpdate = AsyncUpdate(status: string, payload: Option<Payload>, pollAgain: int)

  function HandlePoll(resp: PollResponse, pollAgain: int): AsyncUpdate {
    if resp.PollError? then
      AsyncUpdate("RUNNING", Some(resp.error), pollAgain)
    else
      var job := MapDhis2Job(resp);
      var payload := if resp.Object? then Some(resp.payload) else None;
      if job.success != "" then AsyncUpdate(job.success, payload, 0)
      else if job.fail != "" then AsyncUpdate(job.fail, payload, 0)
      else AsyncUpdate(job.status, payload, pollAgain)
  }

  /** The class of a status string under the two lists that update_async_status is given. */
  function SqlVerdict(status: string): Verdict {
    if status in SUCCESS_VALUES then Succeeded
    else if status in FAIL_VALUES then Broken
    else Unfinished
  }

  /** Both stages together classify every answer as reading it directly does. */
  lemma TwoStagesAgree(resp: PollResponse, pollAgain: int)
    ensures SqlVerdict(HandlePoll(resp, pollAgain).status) == Classify(resp)
    ensures HandlePoll(resp, pollAgain).pollAgain == if Classify(resp).Unfinished? then pollAgain else 0
  {
  }

  /** The two lists, word for word. */
  lemma ListedWords(status: string)
    ensures SqlVerdict(status).Succeeded? <==> status == "COMPLETED" || status == "SUCCESS" || status == "OK"
    ensures SqlVerdict(status).Broken? <==> status == "FAILED" || status == "ERROR"
  {
  }

  /** The four words a poll can write, under the two lists. */
  lemma WordClasses()
    ensures SqlVerdict("COMPLETED") == Succeeded && SqlVerdict("FAILED") == Broken
    ensures SqlVerdict("RUNNING") == Unfinished && SqlVerdict("QUEUED") == Unfinished
  {
  }

  /**
   Whatever the answer, a poll writes one of four words, and each of the two terminal words is
   written exactly for the answers of its own class.
   */
  lemma StatusWordsAreDistinct(resp: PollResponse, pollAgain: int)
    ensures var word := HandlePoll(resp, pollAgain).status;
      && word in ["COMPLETED", "FAILED", "RUNNING", "QUEUED"]
      && (word == "COMPLETED" <==> Classify(resp).Succeeded?) && (word == "COMPLETED" <==> SqlVerdict(word).Succeeded?)
      && (word == "FAILED" <==> Classify(resp).Broken?) && (word == "FAILED" <==> SqlVerdict(word).Broken?)
  {
    TwoStagesAgree(resp, pollAgain);
    WordClasses();
  }
}
