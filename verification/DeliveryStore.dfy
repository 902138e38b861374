/**
 The work queue as the database holds it: one method per SQL function, each one statement
 batch that rewrites the table in place, and the two Go handlers that call them.
 */
module DeliveryStores {
  import opened Basics
  import opened Responses
  import opened Deliveries
  import opened ClaimOrder

  predicate Distinct(s: seq<int>) {
    forall i, j | 0 <= i < j < |s| :: s[i] != s[j]
  }

  function NewRow(requestId: int, serverId: int, priority: int, now: Instant): Delivery {
    Delivery(requestId, serverId, Ready, 0, now, None, None, None, None, priority, None, now, None,
             None, None, None, None, None)
  }

  /** INSERT of one row per server, numbered by the sequence from id on. */
  function Inserted(rows: Table, id: Id, requestId: int, serverIds: seq<int>, priority: int, now: Instant): Table {
    if serverIds == [] then rows
    else
      var n := |serverIds| - 1;
      var before := Inserted(rows, id, requestId, serverIds[..n], priority, now);
      before[id + n := NewRow(requestId, serverIds[n], priority, now)]
  }

  lemma {:induction false} InsertedAt(rows: Table, id: Id, requestId: int, serverIds: seq<int>,
                                      priority: int, now: Instant, k: Id)
    ensures var t := Inserted(rows, id, requestId, serverIds, priority, now);
      && (k in t <==> k in rows || id <= k < id + |serverIds|)
      && (k in t ==> t[k] == if id <= k < id + |serverIds| then NewRow(requestId, serverIds[k - id], priority, now)
                             else rows[k])
  {
    if serverIds == [] {
    } else {
      InsertedAt(rows, id, requestId, serverIds[..|serverIds| - 1], priority, now, k);
    }
  }

  /** The rows a request gets: its destination first, then one per carbon copy. */
  function Expanded(rows: Table, id: Id, requestId: int, dest: int, cc: seq<int>,
                    priority: int, ccPriority: int, now: Instant): Table {
    Inserted(Inserted(rows, id, requestId, [dest], priority, now), id + 1, requestId, cc, ccPriority, now)
  }

  /** The request already has a delivery to the server. */
  predicate Has(rows: Table, requestId: int, serverId: int) {
    exists id | id in rows :: rows[id].requestId == requestId && rows[id].serverId == serverId
  }

  ghost predicate UniquePairs(rows: Table) {
    forall a, b | a in rows && b in rows && a != b ::
      rows[a].requestId != rows[b].requestId || rows[a].serverId != rows[b].serverId
  }

  /** UNIQUE (request_id, server_id), the two foreign keys, and ids drawn from the sequence. */
  ghost predicate Sound(rows: Table, nextId: Id, servers: map<int, bool>, requests: map<int, bool>) {
    && (forall id | id in rows :: id < nextId && rows[id].serverId in servers && rows[id].requestId in requests)
    && UniquePairs(rows)
  }

  /** The insert meets no constraint violation. */
  predicate Admissible(rows: Table, servers: map<int, bool>, requests: map<int, bool>, requestId: int, all: seq<int>) {
    && requestId in requests
    && (forall s | s in all :: s in servers && !Has(rows, requestId, s))
    && Distinct(all)
  }

  lemma ExpandedAt(rows: Table, id: Id, requestId: int, dest: int, cc: seq<int>,
                   priority: int, ccPriority: int, now: Instant, k: Id)
    requires forall i | i in rows :: i < id
    requires k in Expanded(rows, id, requestId, dest, cc, priority, ccPriority, now)
    ensures k in rows || id <= k < id + |[dest] + cc|
    ensures var row := Expanded(rows, id, requestId, dest, cc, priority, ccPriority, now)[k];
      if k in rows then row == rows[k]
      else row == NewRow(requestId, ([dest] + cc)[k - id], if k == id then priority else ccPriority, now)
  {
    var first := Inserted(rows, id, requestId, [dest], priority, now);
    InsertedAt(rows, id, requestId, [dest], priority, now, k);
    InsertedAt(first, id + 1, requestId, cc, ccPriority, now, k);
  }

  /** The new rows, and only they, are those of the destination and the carbon copies. */
  lemma ExpandedColumns(rows: Table, id: Id, requestId: int, dest: int, cc: seq<int>,
                        priority: int, ccPriority: int, now: Instant)
    requires forall i | i in rows :: i < id
    ensures var after := Expanded(rows, id, requestId, dest, cc, priority, ccPriority, now);
      && (forall k :: k in after <==> k in rows || id <= k <= id + |cc|)
      && (forall k | k in rows :: after[k] == rows[k])
      && (forall k | id <= k <= id + |cc| ::
            after[k] == NewRow(requestId, if k == id then dest else cc[k - id - 1],
                               if k == id then priority else ccPriority, now))
  {
    var after := Expanded(rows, id, requestId, dest, cc, priority, ccPriority, now);
    var first := Inserted(rows, id, requestId, [dest], priority, now);
    forall k
      ensures k in after <==> k in rows || id <= k <= id + |cc|
      ensures k in rows ==> after[k] == rows[k]
      ensures id <= k <= id + |cc| ==>
        after[k] == NewRow(requestId, if k == id then dest else cc[k - id - 1],
                           if k == id then priority else ccPriority, now)
    {
      InsertedAt(rows, id, requestId, [dest], priority, now, k);
      InsertedAt(first, id + 1, requestId, cc, ccPriority, now, k);
    }
  }

  /** What the expander inserts are fresh rows, and the constraints still hold. */
  lemma ExpandedIsSound(rows: Table, id: Id, servers: map<int, bool>, requests: map<int, bool>,
                        requestId: int, dest: int, cc: seq<int>, priority: int, ccPriority: int, now: Instant)
    requires Sound(rows, id, servers, requests)
    requires Admissible(rows, servers, requests, requestId, [dest] + cc)
    ensures var after := Expanded(rows, id, requestId, dest, cc, priority, ccPriority, now);
      && Sound(after, id + 1 + |cc|, servers, requests)
      && forall k | k in after && k !in rows :: IsFresh(after[k]) && after[k].requestId == requestId
  {
    var after := Expanded(rows, id, requestId, dest, cc, priority, ccPriority, now);
    forall k | k in after
      ensures k < id + 1 + |cc| && after[k].serverId in servers && after[k].requestId in requests
      ensures k !in rows ==> IsFresh(after[k]) && after[k].requestId == requestId
    {
      ExpandedAt(rows, id, requestId, dest, cc, priority, ccPriority, now, k);
    }
    forall a, b | a in after && b in after && a != b
      ensures after[a].requestId != after[b].requestId || after[a].serverId != after[b].serverId
    {
      ExpandedAt(rows, id, requestId, dest, cc, priority, ccPriority, now, a);
      ExpandedAt(rows, id, requestId, dest, cc, priority, ccPriority, now, b);
      if a < id && b >= id {
        assert Has(rows, rows[a].requestId, rows[a].serverId);
      } else if b < id && a >= id {
        assert Has(rows, rows[b].requestId, rows[b].serverId);
      }
    }
  }

  class DeliveryStore {
    var rows: Table
    var nextId: Id
    var servers: map<int, bool>   // existing id -> suspended
    var requests: map<int, bool>

    ghost predicate Valid()
      reads this
    {
      Sound(rows, nextId, servers, requests)
    }

    constructor ()
      ensures Valid() && rows == map[]
    {
      rows, nextId, servers, requests := map[], 1, map[], map[];
    }

    /** expand_request_to_deliveries: all rows or, on a constraint violation, none. */
    method Expand(requestId: int, dest: int, cc: seq<int>, priority: int, ccPriority: int, now: Instant)
      returns (ok: bool)
      requires Valid()
      modifies this`rows, this`nextId
      ensures Valid()
      ensures ok <==>
        && requestId in requests
        && (forall s | s in [dest] + cc :: s in servers)
        && (forall i, j | 0 <= i < j < |[dest] + cc| :: ([dest] + cc)[i] != ([dest] + cc)[j])
        && (forall k | k in old(rows) && old(rows)[k].requestId == requestId :: old(rows)[k].serverId !in [dest] + cc)
      ensures !ok ==> rows == old(rows)
      ensures ok ==> rows == Expanded(old(rows), old(nextId), requestId, dest, cc, priority, ccPriority, now)
      ensures ok ==> forall k :: k in rows <==> k in old(rows) || old(nextId) <= k <= old(nextId) + |cc|
      ensures ok ==> forall k | k in old(rows) :: rows[k] == old(rows)[k]
      ensures ok ==> forall k | old(nextId) <= k <= old(nextId) + |cc| ::
        rows[k] == Delivery(requestId, if k == old(nextId) then dest else cc[k - old(nextId) - 1],
                            Ready, 0, now, None, None, None, None, if k == old(nextId) then priority else ccPriority,
                            None, now, None, None, None, None, None, None)
    {
      var all := [dest] + cc;
      ok := Admissible(rows, servers, requests, requestId, all);
      assert forall k | k in rows && rows[k].requestId == requestId && rows[k].serverId in all ::
        Has(rows, requestId, rows[k].serverId);
      if ok {
        ExpandedColumns(rows, nextId, requestId, dest, cc, priority, ccPriority, now);
        ExpandedIsSound(rows, nextId, servers, requests, requestId, dest, cc, priority, ccPriority, now);
        rows := Inserted(rows, nextId, requestId, [dest], priority, now);
        rows := Inserted(rows, nextId + 1, requestId, cc, ccPriority, now);
      }
      nextId := nextId + |all|;
    }

    /**
     claim_deliveries; locked are the deliveries skipped because another transaction holds their
     own row, their server's or their request's.
     */
    method ClaimDeliveries(limit: nat, locked: set<Id>, now: Instant) returns (picked: set<Id>)
      modifies this`rows
      ensures IsTop(SendOrder, old(rows), Sendable(old(rows), servers, requests, now) - locked, limit, picked)
      ensures rows == ClaimRows(old(rows), picked, now)
      // every picked row may be claimed, and there are no more than the limit
      ensures |picked| <= limit
      ensures forall a | a in picked ::
        && a in old(rows) && a !in locked && old(rows)[a].status.Ready? && old(rows)[a].nextRunAt <= now
        && old(rows)[a].serverId in servers && !servers[old(rows)[a].serverId]
        && old(rows)[a].requestId in requests && !requests[old(rows)[a].requestId]
      // a row that may be claimed stays behind only when the limit is reached by rows that go before it
      ensures forall b | b in old(rows) && b !in picked && b !in locked
                         && old(rows)[b].status.Ready? && old(rows)[b].nextRunAt <= now
                         && old(rows)[b].serverId in servers && !servers[old(rows)[b].serverId]
                         && old(rows)[b].requestId in requests && !requests[old(rows)[b].requestId] ::
        |picked| == limit && forall a | a in picked ::
          && old(rows)[a].priority >= old(rows)[b].priority
          && (old(rows)[a].priority == old(rows)[b].priority ==> old(rows)[a].nextRunAt <= old(rows)[b].nextRunAt)
          && (old(rows)[a].priority == old(rows)[b].priority && old(rows)[a].nextRunAt == old(rows)[b].nextRunAt
              ==> a < b)
      // picked rows are processing, all else is as before
      ensures rows.Keys == old(rows).Keys && forall k | k in rows ::
        rows[k] == if k in picked then old(rows)[k].(status := Processing, updatedAt := now) else old(rows)[k]
    {
      var candidates := Sendable(rows, servers, requests, now) - locked;
      picked := Pick(SendOrder, rows, candidates, limit);
      LeftBehind(SendOrder, rows, candidates, limit, picked);
      forall b | b in rows && b !in picked && b !in locked && rows[b].status.Ready? && rows[b].nextRunAt <= now
                 && rows[b].serverId in servers && !servers[rows[b].serverId]
                 && rows[b].requestId in requests && !requests[rows[b].requestId]
        ensures |picked| == limit && forall a | a in picked :: Before(SendOrder, rows, a, b)
      {
        assert b in candidates;
      }
      rows := ClaimRows(rows, picked, now);
    }

    /** claim_async_polls; locked are the deliveries whose own row or server's row is held. */
    method ClaimAsyncPolls(limit: nat, locked: set<Id>, now: Instant) returns (picked: set<Id>)
      modifies this`rows
      ensures IsTop(PollOrder, old(rows), Pollable(old(rows), servers, now) - locked, limit, picked)
      ensures rows == TouchRows(old(rows), picked, now)
      ensures |picked| <= limit
      ensures forall a | a in picked ::
        && a in old(rows) && a !in locked && old(rows)[a].status.AwaitingAsync? && old(rows)[a].nextRunAt <= now
        && old(rows)[a].serverId in servers && !servers[old(rows)[a].serverId]
      ensures forall b | b in old(rows) && b !in picked && b !in locked
                         && old(rows)[b].status.AwaitingAsync? && old(rows)[b].nextRunAt <= now
                         && old(rows)[b].serverId in servers && !servers[old(rows)[b].serverId] ::
        |picked| == limit && forall a | a in picked ::
          && old(rows)[a].nextRunAt <= old(rows)[b].nextRunAt
          && (old(rows)[a].nextRunAt == old(rows)[b].nextRunAt ==> a < b)
      // neither status nor due time changes
      ensures rows.Keys == old(rows).Keys && forall k | k in rows ::
        rows[k] == if k in picked then old(rows)[k].(updatedAt := now) else old(rows)[k]
    {
      var candidates := Pollable(rows, servers, now) - locked;
      picked := Pick(PollOrder, rows, candidates, limit);
      LeftBehind(PollOrder, rows, candidates, limit, picked);
      forall b | b in rows && b !in picked && b !in locked && rows[b].status.AwaitingAsync? && rows[b].nextRunAt <= now
                 && rows[b].serverId in servers && !servers[rows[b].serverId]
        ensures |picked| == limit && forall a | a in picked :: Before(PollOrder, rows, a, b)
      {
        assert b in candidates;
      }
      rows := TouchRows(rows, picked, now);
    }

    /** start_async_delivery. */
    method StartAsyncDelivery(id: Id, jobId: string, pollUrl: string, initial: string, delaySeconds: int, now: Instant)
      modifies this`rows
      ensures rows == Write(old(rows), id, d => Started(d, jobId, pollUrl, initial, delaySeconds, now))
      ensures id in rows ==> var d := old(rows)[id];
        rows[id] == d.(asyncJobId := Some(jobId), asyncPollUrl := if pollUrl == "" then None else Some(pollUrl),
                       asyncStatus := Some(initial), status := AwaitingAsync, nextRunAt := now + delaySeconds * SECOND,
                       sentAt := if d.sentAt.Some? then d.sentAt else Some(now), updatedAt := now)
    {
      if id in rows {
        var d := rows[id];
        d := d.(asyncJobId := Some(jobId), asyncPollUrl := if pollUrl == "" then None else Some(pollUrl));
        d := d.(asyncStatus := Some(initial), status := AwaitingAsync, nextRunAt := now + delaySeconds * SECOND);
        rows := rows[id := d.(sentAt := Some(d.sentAt.GetOr(now)), updatedAt := now)];
      }
    }

    /** update_async_status. */
    method UpdateAsyncStatus(id: Id, status: string, response: Option<Payload>,
                             successValues: seq<string>, failValues: seq<string>, pollAgain: int, now: Instant)
      modifies this`rows
      ensures rows == Write(old(rows), id,
                            d => AsyncUpdated(d, status, response, successValues, failValues, pollAgain, now))
      ensures id in rows && status in successValues ==> var d := old(rows)[id];
        rows[id] == d.(asyncStatus := Some(status), asyncResponse := response, status := Done, statusCode := Some(200),
                       lastError := None, sentAt := if d.sentAt.Some? then d.sentAt else Some(now), updatedAt := now)
      ensures id in rows && status !in successValues && status in failValues ==> var d := old(rows)[id];
        rows[id] == d.(asyncStatus := Some(status), asyncResponse := response, status := Failed, statusCode := Some(500),
                       lastError := if response.Some? && response.value.message.Some? then response.value.message
                                    else Some("async failed"),
                       updatedAt := now)
      ensures id in rows && status !in successValues && status !in failValues ==> var d := old(rows)[id];
        rows[id] == d.(asyncStatus := Some(status), asyncResponse := response, asyncLastPolled := Some(now),
                       nextRunAt := now + pollAgain * SECOND, updatedAt := now)
    {
      if id in rows {
        var d := rows[id].(asyncStatus := Some(status), asyncResponse := response, updatedAt := now);
        if status in successValues {
          d := d.(status := Done, statusCode := Some(200), lastError := None, sentAt := Some(d.sentAt.GetOr(now)));
        } else if status in failValues {
          var message := if response.Some? then response.value.message else None;
          d := d.(status := Failed, statusCode := Some(500), lastError := Some(message.GetOr("async failed")));
        } else {
          d := d.(asyncLastPolled := Some(now), nextRunAt := now + pollAgain * SECOND);
        }
        rows := rows[id := d];
      }
    }

    /** finalize_delivery. */
    method FinalizeDelivery(id: Id, ok: bool, statusCode: int, body: string, error: string, retryAt: Option<Instant>,
                            defaultMax: int, minSeconds: int, maxSeconds: int, now: Instant)
      modifies this`rows
      ensures rows == Write(old(rows), id,
                            d => Finalized(d, ok, statusCode, body, error, retryAt,
                                           defaultMax, minSeconds, maxSeconds, now))
      ensures id in rows && ok ==> var d := old(rows)[id];
        rows[id] == d.(status := Done, statusCode := Some(statusCode), responseBody := Some(body), lastError := None,
                       sentAt := if d.sentAt.Some? then d.sentAt else Some(now), updatedAt := now)
      ensures id in rows && !ok ==> var d := old(rows)[id];
        var last := d.attempts + 1 >= (if d.maxAttempts.Some? then d.maxAttempts.value else defaultMax);
        var wait := minSeconds * Pow2(if d.attempts > 1 then d.attempts else 1);
        rows[id] == d.(attempts := d.attempts + 1, status := if last then Failed else Ready,
                       statusCode := Some(statusCode), responseBody := Some(body),
                       lastError := Some(if |error| > 2000 then error[..2000] else error),
                       nextRunAt := if last then now
                                    else if retryAt.Some? then retryAt.value
                                    else now + (if wait < maxSeconds then wait else maxSeconds) * SECOND,
                       retryAfterAt := retryAt, updatedAt := now)
    {
      if id !in rows {
        return;
      }
      var d := rows[id];
      var attempts, maxAttempts := d.attempts, d.maxAttempts.GetOr(defaultMax);
      if ok {
        d := d.(status := Done, statusCode := Some(statusCode), responseBody := Some(body));
        rows := rows[id := d.(lastError := None, sentAt := Some(d.sentAt.GetOr(now)), updatedAt := now)];
        return;
      }
      var next := if retryAt.Some? then retryAt.value
                  else now + Min(minSeconds * Pow2(Max(attempts, 1)), maxSeconds) * SECOND;
      d := d.(attempts := attempts + 1, status := if attempts + 1 >= maxAttempts then Failed else Ready);
      d := d.(statusCode := Some(statusCode), responseBody := Some(body));
      d := d.(lastError := Some(if |error| <= 2000 then error else error[..2000]));
      d := d.(nextRunAt := if attempts + 1 >= maxAttempts then now else next);
      rows := rows[id := d.(retryAfterAt := retryAt, updatedAt := now)];
    }

    /** handleSendResty after the exchange: the switch on the status code. */
    method HandleSend(id: Id, useAsync: bool, resp: SendResponse, pollAgain: int, now: Instant)
      modifies this`rows
      ensures rows == Write(old(rows), id, d => AfterSend(d, Decide(useAsync, resp), pollAgain, now))
    {
      if resp.TransportError? {
        FinalizeDelivery(id, false, 0, "", resp.message, None, 8, 2, 120, now);
        return;
      }
      var status := resp.status;
      if useAsync && status == 202 {
        var jobId, pollUrl := JobIdOf(resp.location), resp.location;
        if jobId == "" {
          FinalizeDelivery(id, false, status, resp.body, "missing async job id", resp.retryAfter, 8, 2, 120, now);
        } else {
          StartAsyncDelivery(id, jobId, pollUrl, "queued", pollAgain, now);
        }
      } else if 200 <= status < 300 {
        FinalizeDelivery(id, true, status, resp.body, "", None, 8, 2, 120, now);
      } else if status == 429 || status >= 500 {
        FinalizeDelivery(id, false, status, resp.body, "retryable", resp.retryAfter, 8, 2, 120, now);
      } else {
        FinalizeDelivery(id, false, status, resp.body, "terminal", None, 8, 2, 120, now);
      }
    }

    /** handlePollResty after the exchange. */
    method HandlePoll(id: Id, resp: PollResponse, pollAgain: int, now: Instant)
      modifies this`rows
      ensures rows == Write(old(rows), id, d => AfterPoll(d, resp, pollAgain, now))
    {
      if resp.PollError? {
        UpdateAsyncStatus(id, "RUNNING", Some(resp.error), SUCCESS_VALUES, FAIL_VALUES, pollAgain, now);
        return;
      }
      var job := MapDhis2Job(resp);
      var payload := if resp.Object? then Some(resp.payload) else None;
      if job.success != "" {
        UpdateAsyncStatus(id, job.success, payload, SUCCESS_VALUES, FAIL_VALUES, 0, now);
      } else if job.fail != "" {
        UpdateAsyncStatus(id, job.fail, payload, SUCCESS_VALUES, FAIL_VALUES, 0, now);
      } else {
        UpdateAsyncStatus(id, job.status, payload, SUCCESS_VALUES, FAIL_VALUES, pollAgain, now);
      }
    }
  }
}
