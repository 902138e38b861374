/**
 Whole runs of the protocol, one delivery at a time: how often it is claimed, when it may be
 claimed again, and what its terminal status means.
 */
module QueueHistory {
  import opened Basics
  import opened Responses
  import opened Deliveries
  import opened WorkQueue
  import opened QueueSafety

  // ---------------------------------------------------------------- histories

  /** How often the delivery was claimed for sending. */
  ghost function Picks(es: seq<Event>, id: Id): nat
    decreases |es|
  {
    if es == [] then 0
    else Picks(Init(es), id) + if ActionOn(Last(es), id).Pick? then 1 else 0
  }

  /** How many of its sends were carried through, response and database call included. */
  ghost function Sends(es: seq<Event>, id: Id): nat
    decreases |es|
  {
    if es == [] then 0
    else Sends(Init(es), id) + if ActionOn(Last(es), id).Send? then 1 else 0
  }

  /** The remote server accepted the send as a job: an asynchronous 202 whose Location names an id. */
  predicate IsStart(a: RowAction) {
    a.Send? && a.sent.Http? && a.useAsync && a.sent.status == 202 && !OnlySlashes(a.sent.location)
  }

  /** How often start_async_delivery ran for it. */
  ghost function Starts(es: seq<Event>, id: Id): nat
    decreases |es|
  {
    if es == [] then 0
    else Starts(Init(es), id) + if IsStart(ActionOn(Last(es), id)) then 1 else 0
  }

  function VerdictOf(a: RowAction): seq<Status> {
    if !a.Poll? then []
    else match Classify(a.polled)
      case Succeeded => [Done]
      case Broken => [Failed]
      case Unfinished => []
  }

  /** The terminal statuses its polls have read, in order. */
  ghost function Verdicts(es: seq<Event>, id: Id): seq<Status>
    decreases |es|
  {
    if es == [] then []
    else Verdicts(Init(es), id) + VerdictOf(ActionOn(Last(es), id))
  }

  /** The send failed: no answer, an answer outside 2xx, or a job without an id. */
  predicate IsFailure(a: RowAction) {
    a.Send? && (a.sent.TransportError? || a.sent.status < 200 || a.sent.status >= 300
                || (a.useAsync && a.sent.status == 202 && OnlySlashes(a.sent.location)))
  }

  /** The instant the server asked to wait for, where the worker honours it: overload, or a job without an id. */
  function Hint(a: RowAction): Option<Instant>
    requires IsFailure(a)
  {
    if a.sent.Http? && (a.sent.status == 429 || a.sent.status >= 500 || (a.useAsync && a.sent.status == 202))
    then a.sent.retryAfter else None
  }

  /** These three readings of an answer are what the worker decides by. */
  lemma SendsSort(a: RowAction)
    requires a.Send?
    ensures IsStart(a) <==> Decide(a.useAsync, a.sent).StartAsync?
    ensures IsFailure(a) <==> Decide(a.useAsync, a.sent).Finalize? && !Decide(a.useAsync, a.sent).ok
    ensures IsFailure(a) ==> Decide(a.useAsync, a.sent).retryAt == Hint(a)
  {
    SendOutcome(a.useAsync, a.sent);
  }

  /** The largest number of attempts the row allows: a limit below one still lets one send happen. */
  function Limit(d: Delivery): int {
    Max(1, d.maxAttempts.GetOr(DEFAULT_MAX_ATTEMPTS))
  }

  predicate FailedBySend(d: Delivery) {
    d.status.Failed? && !d.WentAsync()
  }

  // ---------------------------------------------------------------- the accounts of one delivery

  ghost predicate Counted(es: seq<Event>, id: Id, d: Delivery) {
    && 0 <= d.attempts <= Limit(d)
    && (!FailedBySend(d) ==> d.attempts < Limit(d))
    && Picks(es, id) == d.attempts + (if d.status.Ready? || FailedBySend(d) then 0 else 1)
    && Sends(es, id) == Picks(es, id) - (if d.status.Processing? then 1 else 0)
    && Starts(es, id) == (if d.WentAsync() then 1 else 0)
  }

  ghost predicate Judged(es: seq<Event>, id: Id, d: Delivery) {
    var v := Verdicts(es, id);
    if !d.WentAsync() then v == []
    else if v == [] then d.status.AwaitingAsync?
    else d.status == Last(v)
  }

  ghost predicate Unknown(es: seq<Event>, id: Id) {
    Picks(es, id) == 0 && Sends(es, id) == 0 && Starts(es, id) == 0 && Verdicts(es, id) == []
  }

  lemma StepKeepsAccounts(es: seq<Event>, e: Event, id: Id, d: Delivery)
    requires InPhase(d) && Guarded(d, ActionOn(e, id), e.at)
    requires Counted(es, id, d) && Judged(es, id, d)
    ensures Counted(es + [e], id, Effect(d, ActionOn(e, id), e.at))
    ensures Judged(es + [e], id, Effect(d, ActionOn(e, id), e.at))
  {
    assert Init(es + [e]) == es && Last(es + [e]) == e;
    var a := ActionOn(e, id);
    if a.Send? {
      SendsSort(a);
    } else if a.Poll? {
      PollVerdict(d, a.polled, a.pollAgain, e.at);
    }
  }

  lemma {:induction false} Accounts(s0: State, es: seq<Event>, id: Id)
    requires Reach(s0, es)
    ensures id in End(s0, es).rows ==> Counted(es, id, End(s0, es).rows[id]) && Judged(es, id, End(s0, es).rows[id])
    ensures id !in End(s0, es).rows ==> Unknown(es, id)
    decreases |es|
  {
    if es == [] {
    } else {
      var s, e := End(s0, Init(es)), Last(es);
      assert es == Init(es) + [e];
      Accounts(s0, Init(es), id);
      RowAtNext(s0, Init(es), e, id);
      if id in s.rows {
        StepKeepsAccounts(Init(es), e, id, s.rows[id]);
      }
    }
  }

  // ---------------------------------------------------------------- bounded sends

  /**
   In every run a delivery is claimed at most max(1, M) times, M being its max_attempts or 8,
   and attempts counts the claims exactly, but for the claim in hand or the one that ended well.
   */
  lemma BoundedSends(s0: State, es: seq<Event>, id: Id)
    requires Reach(s0, es) && id in End(s0, es).rows
    ensures var d := End(s0, es).rows[id];
      && Picks(es, id) <= Max(1, d.maxAttempts.GetOr(8))
      && Picks(es, id) == d.attempts + (if d.status.Ready? || FailedBySend(d) then 0 else 1)
      && Sends(es, id) == Picks(es, id) - (if d.status.Processing? then 1 else 0)
      && Starts(es, id) <= 1
  {
    Accounts(s0, es, id);
  }

  /** The rank of a delivery: attempts left, then how far it is from an end. */
  function Rank(d: Delivery): (int, int) {
    (Limit(d) - d.attempts,
     match d.status case Ready => 3 case Processing => 2 case AwaitingAsync => 1 case Done => 0 case Failed => 0)
  }

  predicate LexLess(a: (int, int), b: (int, int)) {
    0 <= a.0 && 0 <= a.1 && (a.0 < b.0 || (a.0 == b.0 && a.1 < b.1))
  }

  lemma EffectLowersRank(d: Delivery, a: RowAction, now: Instant)
    requires InPhase(d) && Guarded(d, a, now)
    requires d.attempts <= Limit(d) && (!FailedBySend(d) ==> d.attempts < Limit(d))
    ensures a.Pick? || a.Send? ==> LexLess(Rank(Effect(d, a, now)), Rank(d))
    ensures Rank(Effect(d, a, now)) == Rank(d) || LexLess(Rank(Effect(d, a, now)), Rank(d))
  {
  }

  /** Each claim, finalize and start-async lowers the rank, and no event raises it. */
  lemma RankFalls(s0: State, es: seq<Event>, e: Event, id: Id)
    requires Reach(s0, es) && Enabled(End(s0, es), e) && id in End(s0, es).rows
    ensures id in Apply(End(s0, es), e).rows
    ensures var before, after := Rank(End(s0, es).rows[id]), Rank(Apply(End(s0, es), e).rows[id]);
      && after.0 >= 0 && after.1 >= 0
      && (after == before || after.0 < before.0 || (after.0 == before.0 && after.1 < before.1))
      && (ActionOn(e, id).Pick? || ActionOn(e, id).Send? ==> after != before)
  {
    Accounts(s0, es, id);
    RowAtNext(s0, es, e, id);
    EffectLowersRank(End(s0, es).rows[id], ActionOn(e, id), e.at);
  }

  // ---------------------------------------------------------------- terminal states and phases

  /** What any later state owes to a row: ends stay ends, and the async phase is never left backwards. */
  predicate Follows(d: Delivery, d': Delivery) {
    && (d.Terminal() ==> d'.Terminal())
    && (d.WentAsync() ==> d'.WentAsync() && d'.attempts == d.attempts && (d'.status.AwaitingAsync? || d'.Terminal()))
    && (d.Terminal() && !d.WentAsync() ==> d' == d)
    && (d.sentAt.Some? ==> d'.sentAt == d.sentAt)
    && d'.requestId == d.requestId && d'.serverId == d.serverId
    && d'.priority == d.priority && d'.maxAttempts == d.maxAttempts
  }

  lemma EffectFollows(d: Delivery, a: RowAction, now: Instant)
    requires InPhase(d) && Guarded(d, a, now)
    ensures Follows(d, Effect(d, a, now))
  {
  }

  /**
   Over any stretch of any run, done and failed are never left, despite late and duplicate
   polls; once the job was started no send touches the row again and attempts is frozen; and
   an end reached without a job freezes the whole row.
   */
  lemma {:induction false} TerminalAbsorbs(s0: State, es: seq<Event>, i: nat, j: nat, id: Id)
    requires Reach(s0, es) && i <= j <= |es| && id in StateAt(s0, es, i).rows
    ensures id in StateAt(s0, es, j).rows
    ensures Follows(StateAt(s0, es, i).rows[id], StateAt(s0, es, j).rows[id])
    decreases j
  {
    if i == j {
      StateAtInv(s0, es, i);
    } else {
      TerminalAbsorbs(s0, es, i, j - 1, id);
      RowAtStep(s0, es, j - 1, id);
      EffectFollows(StateAt(s0, es, j - 1).rows[id], ActionOn(es[j - 1], id), es[j - 1].at);
    }
  }

  /** What the columns of a row say about its past: when it was first sent, and why it is not done. */
  predicate Tells(d: Delivery) {
    && (d.sentAt.Some? <==> d.WentAsync() || d.status.Done?)
    && (d.status.Done? ==> d.lastError.None?)
    && (d.status.Failed? || (d.status.Ready? && d.attempts > 0) ==> d.lastError.Some?)
    && (d.WentAsync() && d.Terminal() ==> d.statusCode == Some(if d.status.Done? then 200 else 500))
  }

  lemma EffectTells(d: Delivery, a: RowAction, now: Instant)
    requires InPhase(d) && Guarded(d, a, now) && d.attempts >= 0 && Tells(d)
    ensures Tells(Effect(d, a, now))
  {
    match a
    case Send(useAsync, resp, again) => SendResult(d, useAsync, resp, again, now);
    case Poll(resp, again) => TwoStagesAgree(resp, again);
    case _ =>
  }

  /** In every reachable state each row tells its story. */
  lemma {:induction false} RowsTellTheirStory(s0: State, es: seq<Event>, id: Id)
    requires Reach(s0, es) && id in End(s0, es).rows
    ensures Tells(End(s0, es).rows[id])
    ensures var d := End(s0, es).rows[id];
      && (d.sentAt.Some? <==> d.asyncJobId.Some? || d.status == Done)
      && (d.status == Done ==> d.lastError.None?)
      && (d.status == Failed || (d.status == Ready && d.attempts > 0) ==> d.lastError.Some?)
      && (d.asyncJobId.Some? && d.status == Done ==> d.statusCode == Some(200))
      && (d.asyncJobId.Some? && d.status == Failed ==> d.statusCode == Some(500))
    decreases |es|
  {
    if es == [] {
    } else {
      var s, e := End(s0, Init(es)), Last(es);
      RowAtNext(s0, Init(es), e, id);
      if id in s.rows {
        Accounts(s0, Init(es), id);
        RowsTellTheirStory(s0, Init(es), id);
        EffectTells(s.rows[id], ActionOn(e, id), e.at);
      }
    }
  }

  /** Every poll in flight, duplicates included, concerns a delivery whose job was started once. */
  lemma PollsConcernStartedJobs(s0: State, es: seq<Event>, pl: Place, id: Id)
    requires Reach(s0, es) && id in At(End(s0, es).polls, pl)
    ensures id in End(s0, es).rows && Starts(es, id) == 1
    ensures var d := End(s0, es).rows[id]; d.status.AwaitingAsync? || d.Terminal()
  {
    ReachableInv(s0, es);
    assert id in InAsync(End(s0, es).rows);
    Accounts(s0, es, id);
  }

  lemma {:induction false} VerdictsGrow(es: seq<Event>, k: nat, id: Id)
    requires k <= |es|
    ensures Verdicts(es[..k], id) <= Verdicts(es, id)
    decreases |es|
  {
    if k == |es| {
      assert es[..k] == es;
    } else {
      VerdictsGrow(Init(es), k, id);
      assert Init(es)[..k] == es[..k];
    }
  }

  lemma FewerIsEarlier(es: seq<Event>, i: nat, j: nat, id: Id)
    requires i <= |es| && j <= |es|
    requires |Verdicts(es[..i], id)| < |Verdicts(es[..j], id)|
    ensures i < j
  {
    if j <= i {
      assert es[..i][..j] == es[..j];
      VerdictsGrow(es[..i], j, id);
    }
  }

  /** The moment the m-th verdict came in. */
  lemma {:induction false} WhenJudged(es: seq<Event>, id: Id, m: nat) returns (k: nat)
    requires m < |Verdicts(es, id)|
    ensures k <= |es| && |Verdicts(es[..k], id)| == m + 1
    decreases |es|
  {
    if m < |Verdicts(Init(es), id)| {
      k := WhenJudged(Init(es), id, m);
      assert Init(es)[..k] == es[..k];
    } else {
      k := |es|;
      assert es[..k] == es;
    }
  }

  /** The status of a delivery that went async is its last verdict, or awaiting_async before the first. */
  lemma StatusIsLastVerdict(s0: State, es: seq<Event>, k: nat, id: Id)
    requires Reach(s0, es) && k <= |es|
    ensures id in StateAt(s0, es, k).rows ==> Judged(es[..k], id, StateAt(s0, es, k).rows[id])
    ensures id !in StateAt(s0, es, k).rows ==> Verdicts(es[..k], id) == []
  {
    PrefixIsRun(s0, es, k);
    Accounts(s0, es[..k], id);
  }

  ghost predicate NeverSwaps(s0: State, es: seq<Event>, id: Id)
    requires IsRun(s0, es)
  {
    forall i, j | 0 <= i <= j <= |es| && id in StateAt(s0, es, i).rows && StateAt(s0, es, i).rows[id].Terminal() ::
      id in StateAt(s0, es, j).rows && StateAt(s0, es, j).rows[id].status == StateAt(s0, es, i).rows[id].status
  }

  ghost predicate Agree(v: seq<Status>) {
    forall m, n | 0 <= m < n < |v| :: v[m] == v[n]
  }

  lemma PrefixesEndAlike(v: seq<Status>, w: seq<Status>, all: seq<Status>)
    requires v <= all && w <= all && Agree(all)
    ensures v != [] && w != [] ==> Last(v) == Last(w)
  {
    if v != [] && w != [] {
      assert Last(v) == all[|v| - 1] && Last(w) == all[|w| - 1];
    }
  }

  lemma AgreeingNeverSwaps(s0: State, es: seq<Event>, i: nat, j: nat, id: Id)
    requires Reach(s0, es) && Agree(Verdicts(es, id)) && i <= j <= |es|
    requires id in StateAt(s0, es, i).rows && StateAt(s0, es, i).rows[id].Terminal()
    ensures id in StateAt(s0, es, j).rows && StateAt(s0, es, j).rows[id].status == StateAt(s0, es, i).rows[id].status
  {
    TerminalAbsorbs(s0, es, i, j, id);
    StatusIsLastVerdict(s0, es, i, id);
    StatusIsLastVerdict(s0, es, j, id);
    VerdictsGrow(es, i, id);
    VerdictsGrow(es, j, id);
    assert es[..i] == es[..j][..i];
    VerdictsGrow(es[..j], i, id);
    PrefixesEndAlike(Verdicts(es[..i], id), Verdicts(es[..j], id), Verdicts(es, id));
  }

  lemma {:induction false} VerdictsAreTerminal(es: seq<Event>, id: Id)
    ensures forall k | 0 <= k < |Verdicts(es, id)| :: Verdicts(es, id)[k].Done? || Verdicts(es, id)[k].Failed?
    decreases |es|
  {
    if es == [] {
    } else {
      VerdictsAreTerminal(Init(es), id);
    }
  }

  lemma JudgedAt(s0: State, es: seq<Event>, id: Id, m: nat) returns (k: nat, v: Status)
    requires Reach(s0, es) && m < |Verdicts(es, id)|
    ensures k <= |es| && |Verdicts(es[..k], id)| == m + 1
    ensures id in StateAt(s0, es, k).rows && StateAt(s0, es, k).rows[id].Terminal()
    ensures v == StateAt(s0, es, k).rows[id].status == Verdicts(es, id)[m]
  {
    k := WhenJudged(es, id, m);
    StatusIsLastVerdict(s0, es, k, id);
    VerdictsGrow(es, k, id);
    VerdictsAreTerminal(es[..k], id);
    v := StateAt(s0, es, k).rows[id].status;
  }

  /** done and failed never swap in a run exactly when the terminal reads of the remote job agree. */
  lemma NeverSwapsIff(s0: State, es: seq<Event>, id: Id)
    requires Reach(s0, es)
    ensures NeverSwaps(s0, es, id) <==> Agree(Verdicts(es, id))
  {
    if Agree(Verdicts(es, id)) {
      forall i: nat, j: nat | i <= j <= |es| && id in StateAt(s0, es, i).rows && StateAt(s0, es, i).rows[id].Terminal()
        ensures id in StateAt(s0, es, j).rows && StateAt(s0, es, j).rows[id].status == StateAt(s0, es, i).rows[id].status
      {
        AgreeingNeverSwaps(s0, es, i, j, id);
      }
    }
    if NeverSwaps(s0, es, id) {
      forall m: nat, n: nat | m < n < |Verdicts(es, id)|
        ensures Verdicts(es, id)[m] == Verdicts(es, id)[n]
      {
        var i, vi := JudgedAt(s0, es, id, m);
        var j, vj := JudgedAt(s0, es, id, n);
        FewerIsEarlier(es, i, j, id);
      }
    }
  }

  // ---------------------------------------------------------------- spacing of retries

  /** The instant before which a failed send keeps the delivery out of every claim. */
  function Floor(d: Delivery, a: RowAction, now: Instant): Instant
    requires IsFailure(a)
  {
    if Hint(a).Some? then Hint(a).value else now + Min(2 * Pow2(Max(d.attempts, 1)), 120) * SECOND
  }

  predicate Waits(d: Delivery, clock: Instant, floor: Instant) {
    clock >= floor || (d.status.Ready? && d.nextRunAt == floor) || FailedBySend(d)
  }

  lemma WaitingStep(d: Delivery, a: RowAction, clock: Instant, now: Instant, floor: Instant)
    requires InPhase(d) && Guarded(d, a, now) && clock <= now
    requires Waits(d, clock, floor)
    ensures Waits(Effect(d, a, now), now, floor)
  {
  }

  lemma FailureWaits(d: Delivery, a: RowAction, now: Instant)
    requires InPhase(d) && Guarded(d, a, now) && IsFailure(a)
    ensures Waits(Effect(d, a, now), now, Floor(d, a, now))
  {
    SendsSort(a);
  }

  /** Whoever waits for an instant goes on waiting until it has come. */
  lemma {:induction false} WaitsOn(s0: State, es: seq<Event>, i: nat, j: nat, id: Id, floor: Instant)
    requires Reach(s0, es) && i <= j <= |es| && id in StateAt(s0, es, i).rows
    requires Waits(StateAt(s0, es, i).rows[id], StateAt(s0, es, i).clock, floor)
    ensures id in StateAt(s0, es, j).rows
    ensures Waits(StateAt(s0, es, j).rows[id], StateAt(s0, es, j).clock, floor)
    decreases j
  {
    if i == j {
    } else {
      WaitsOn(s0, es, i, j - 1, id, floor);
      RowAtStep(s0, es, j - 1, id);
      var s, e := StateAt(s0, es, j - 1), es[j - 1];
      WaitingStep(s.rows[id], ActionOn(e, id), s.clock, e.at, floor);
    }
  }

  /**
   After a failed send no claim of the delivery happens before the Retry-After instant when one
   was given, and otherwise before LEAST(2 * 2^max(attempts, 1), 120) seconds have passed.
   */
  lemma RetrySpacing(s0: State, es: seq<Event>, i: nat, j: nat, id: Id)
    requires Reach(s0, es) && i < j < |es| && id in StateAt(s0, es, i).rows
    requires IsFailure(ActionOn(es[i], id)) && ActionOn(es[j], id).Pick?
    ensures es[j].at >= Floor(StateAt(s0, es, i).rows[id], ActionOn(es[i], id), es[i].at)
  {
    var d, e := StateAt(s0, es, i).rows[id], es[i];
    RowAtStep(s0, es, i, id);
    FailureWaits(d, ActionOn(e, id), e.at);
    WaitsOn(s0, es, i + 1, j, id, Floor(d, ActionOn(e, id), e.at));
    RowAtStep(s0, es, j, id);
  }

  /** A ready delivery is left alone until it is claimed. */
  lemma {:induction false} ReadyUntilPicked(s0: State, es: seq<Event>, i: nat, j: nat, id: Id)
    requires Reach(s0, es) && i <= j <= |es|
    requires id in StateAt(s0, es, i).rows && StateAt(s0, es, i).rows[id].status.Ready?
    requires forall k | i <= k < j :: !ActionOn(es[k], id).Pick?
    ensures id in StateAt(s0, es, j).rows && StateAt(s0, es, j).rows[id] == StateAt(s0, es, i).rows[id]
    decreases j
  {
    if i == j {
    } else {
      ReadyUntilPicked(s0, es, i, j - 1, id);
      RowAtStep(s0, es, j - 1, id);
    }
  }

  /** A failed send that leaves attempts over makes the row ready again, due at the floor. */
  lemma FailureReschedules(d: Delivery, a: RowAction, now: Instant)
    requires IsFailure(a) && d.attempts + 1 < d.maxAttempts.GetOr(8)
    ensures var d' := Effect(d, a, now);
      d'.status.Ready? && d'.nextRunAt == Floor(d, a, now) && d'.serverId == d.serverId && d'.requestId == d.requestId
  {
    SendsSort(a);
  }

  /**
   From a failed send that leaves attempts over until the next claim, the delivery can be
   claimed at exactly the times from the floor on, as long as its server and request are live.
   */
  lemma ClaimableExactlyFromFloor(s0: State, es: seq<Event>, i: nat, j: nat, id: Id, now: Instant)
    requires Reach(s0, es) && i < j <= |es| && id in StateAt(s0, es, i).rows && IsFailure(ActionOn(es[i], id))
    requires StateAt(s0, es, i).rows[id].attempts + 1 < StateAt(s0, es, i).rows[id].maxAttempts.GetOr(8)
    requires forall k | i < k < j :: !ActionOn(es[k], id).Pick?
    ensures var d, s := StateAt(s0, es, i).rows[id], StateAt(s0, es, j);
      id in Claimable(s, SendLane, {}, now)
      <==> now >= Floor(d, ActionOn(es[i], id), es[i].at)
           && d.serverId in s.servers && !s.servers[d.serverId] && d.requestId in s.requests && !s.requests[d.requestId]
  {
    RowAtStep(s0, es, i, id);
    FailureReschedules(StateAt(s0, es, i).rows[id], ActionOn(es[i], id), es[i].at);
    ReadyUntilPicked(s0, es, i + 1, j, id);
  }

  // ---------------------------------------------------------------- total delay

  /** When the first send of the delivery failed. */
  ghost function FirstFailure(es: seq<Event>, id: Id): Option<Instant>
    decreases |es|
  {
    if es == [] then None
    else if FirstFailure(Init(es), id).Some? then FirstFailure(Init(es), id)
    else if IsFailure(ActionOn(Last(es), id)) then Some(Last(es).at)
    else None
  }

  /** No failed send of the delivery came with a Retry-After. */
  ghost predicate NoRetryAfter(es: seq<Event>, id: Id) {
    forall k | 0 <= k < |es| && IsFailure(ActionOn(es[k], id)) :: Hint(ActionOn(es[k], id)).None?
  }

  /** What a row owes to the time of its first failed send. */
  predicate SpacedSince(first: Option<Instant>, d: Delivery, clock: Instant) {
    && 0 <= d.attempts
    && (d.status.Processing? ==> d.nextRunAt <= clock)
    && (d.attempts == 0 <==> first.None?)
    && (first.Some? && (d.status.Ready? || d.status.Processing?) ==>
          d.nextRunAt >= first.value + TotalBackoff(d.attempts) * SECOND)
    && (first.Some? && FailedBySend(d) ==> clock >= first.value + TotalBackoff(d.attempts - 1) * SECOND)
  }

  ghost predicate Spaced(es: seq<Event>, id: Id, d: Delivery, clock: Instant) {
    SpacedSince(FirstFailure(es, id), d, clock)
  }

  lemma EffectKeepsSpacing(first: Option<Instant>, d: Delivery, a: RowAction, clock: Instant, now: Instant)
    requires InPhase(d) && Guarded(d, a, now) && clock <= now && SpacedSince(first, d, clock)
    requires IsFailure(a) ==> Hint(a).None?
    ensures SpacedSince(if first.None? && IsFailure(a) then Some(now) else first, Effect(d, a, now), now)
  {
    if a.Send? {
      SendResult(d, a.useAsync, a.sent, a.pollAgain, now);
      SendsSort(a);
    } else if a.Poll? {
      PollVerdict(d, a.polled, a.pollAgain, now);
    }
  }

  lemma StepKeepsSpacing(es: seq<Event>, e: Event, id: Id, d: Delivery, clock: Instant)
    requires InPhase(d) && Guarded(d, ActionOn(e, id), e.at) && clock <= e.at
    requires NoRetryAfter(es + [e], id) && Spaced(es, id, d, clock)
    ensures Spaced(es + [e], id, Effect(d, ActionOn(e, id), e.at), e.at)
  {
    assert Init(es + [e]) == es && Last(es + [e]) == e == (es + [e])[|es|];
    EffectKeepsSpacing(FirstFailure(es, id), d, ActionOn(e, id), clock, e.at);
  }

  lemma {:induction false} SpacedOut(s0: State, es: seq<Event>, id: Id)
    requires Reach(s0, es) && NoRetryAfter(es, id)
    ensures id in End(s0, es).rows ==> Spaced(es, id, End(s0, es).rows[id], End(s0, es).clock)
    ensures id !in End(s0, es).rows ==> FirstFailure(es, id).None?
    decreases |es|
  {
    if es == [] {
    } else {
      var s, e := End(s0, Init(es)), Last(es);
      assert es == Init(es) + [e];
      assert NoRetryAfter(Init(es), id) by {
        assert forall k | 0 <= k < |Init(es)| :: Init(es)[k] == es[k];
      }
      SpacedOut(s0, Init(es), id);
      RowAtNext(s0, Init(es), e, id);
      if id in s.rows {
        StepKeepsSpacing(Init(es), e, id, s.rows[id], s.clock);
      }
    }
  }

  lemma EffectExhausts(d: Delivery, a: RowAction, now: Instant)
    requires InPhase(d) && Guarded(d, a, now) && 0 <= d.attempts
    requires !FailedBySend(d) ==> d.attempts < Limit(d)
    requires FailedBySend(d) <==> d.attempts == Limit(d)
    ensures FailedBySend(Effect(d, a, now)) <==> Effect(d, a, now).attempts == Limit(Effect(d, a, now))
  {
  }

  /** attempts reaches exactly max(1, M) on a delivery failed by its sends, and nowhere else. */
  lemma {:induction false} FailedMeansExhausted(s0: State, es: seq<Event>, id: Id)
    requires Reach(s0, es) && id in End(s0, es).rows
    ensures var d := End(s0, es).rows[id]; FailedBySend(d) <==> d.attempts == Limit(d)
    decreases |es|
  {
    Accounts(s0, es, id);
    if es == [] {
    } else {
      var s, e := End(s0, Init(es)), Last(es);
      RowAtNext(s0, Init(es), e, id);
      if id in s.rows {
        FailedMeansExhausted(s0, Init(es), id);
        Accounts(s0, Init(es), id);
        EffectExhausts(s.rows[id], ActionOn(e, id), e.at);
      }
    }
  }

  /**
   A delivery that its sends exhausted, with no Retry-After on the way, was given the whole
   backoff: 248 seconds between its first and its last failure under the default limit of 8.
   */
  lemma ExhaustionTakesTheWholeBackoff(s0: State, es: seq<Event>, id: Id)
    requires Reach(s0, es) && NoRetryAfter(es, id)
    requires id in End(s0, es).rows && FailedBySend(End(s0, es).rows[id])
    ensures var d := End(s0, es).rows[id];
      && d.attempts >= 1 && FirstFailure(es, id).Some?
      && End(s0, es).clock >= FirstFailure(es, id).value + TotalBackoff(d.attempts - 1) * SECOND
      && (d.maxAttempts.None? ==> End(s0, es).clock >= FirstFailure(es, id).value + 248 * SECOND)
  {
    SpacedOut(s0, es, id);
    FailedMeansExhausted(s0, es, id);
    TotalBackoffClosedForm(7);
  }
}
