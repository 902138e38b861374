/**
 The events of the protocol are the calls of the store: each method, run on the table of a
 protocol state, is an enabled event and leaves the table that event leaves.
 */
module ProtocolStore {
  import opened Basics
  import opened Responses
  import opened Deliveries
  import opened ClaimOrder
  import opened DeliveryStores
  import opened WorkQueue
  import opened QueueSafety

  /** The store holds the table, servers and requests of the state. */
  ghost predicate Holds(store: DeliveryStore, s: State)
    reads store
  {
    store.rows == s.rows && store.servers == s.servers && store.requests == s.requests
  }

  /** The elements of a set in some order, each once. */
  lemma {:induction false} Listed(ids: set<Id>) returns (order: seq<Id>)
    ensures NoDup(order) && Elements(order) == ids && |order| == |ids|
    decreases ids
  {
    if ids == {} {
      order := [];
    } else {
      var x := Element(ids);
      var rest := Listed(ids - {x});
      assert x !in Elements(rest);
      NoDupAppend([x], rest);
      order := [x] + rest;
      assert Elements(order) == {x} + Elements(rest);
    }
  }

  lemma {:induction false} ListedSize(ids: seq<Id>)
    requires NoDup(ids)
    ensures |Elements(ids)| == |ids|
  {
    if ids == [] {
    } else {
      ListedSize(Init(ids));
      assert ids == Init(ids) + [Last(ids)];
      assert Elements(ids) == Elements(Init(ids)) + {Last(ids)};
      assert Last(ids) !in Elements(Init(ids));
    }
  }

  /**
   What a claim event brings to its cursor: at most a batch, only rows that may be claimed then,
   and none in front of which such a row was left behind.
   */
  lemma ClaimMeans(s: State, e: Event, b: Id)
    requires Enabled(s, e) && e.act.Claim?
    ensures e.act.proc in s.procs && |e.act.ids| <= s.procs[e.act.proc].batch
    ensures forall a | a in e.act.ids ::
      && a in s.rows && a !in e.act.locked && s.rows[a].nextRunAt <= e.at
      && s.rows[a].status == (if e.act.lane.SendLane? then Ready else AwaitingAsync)
      && s.rows[a].serverId in s.servers && !s.servers[s.rows[a].serverId]
      && (e.act.lane.SendLane? ==> s.rows[a].requestId in s.requests && !s.requests[s.rows[a].requestId])
    ensures b in s.rows && b !in e.act.ids && b !in e.act.locked && s.rows[b].nextRunAt <= e.at
            && s.rows[b].status == (if e.act.lane.SendLane? then Ready else AwaitingAsync)
            && s.rows[b].serverId in s.servers && !s.servers[s.rows[b].serverId]
            && (e.act.lane.SendLane? ==> s.rows[b].requestId in s.requests && !s.requests[s.rows[b].requestId]) ==>
      |e.act.ids| == s.procs[e.act.proc].batch && forall a | a in e.act.ids ::
        && (e.act.lane.SendLane? ==> s.rows[a].priority >= s.rows[b].priority)
        && ((e.act.lane.SendLane? && s.rows[a].priority > s.rows[b].priority)
            || s.rows[a].nextRunAt < s.rows[b].nextRunAt
            || (s.rows[a].nextRunAt == s.rows[b].nextRunAt && a < b))
  {
    var c := e.act;
    var candidates := Claimable(s, c.lane, c.locked, e.at);
    ListedSize(c.ids);
    LeftBehind(OrderOf(c.lane), s.rows, candidates, s.procs[c.proc].batch, Elements(c.ids));
    forall a | a in c.ids
      ensures a in candidates && a in Elements(c.ids)
    {
      assert a in Elements(c.ids);
    }
    assert b in candidates && b !in c.ids ==> b !in Elements(c.ids);
    assert c.lane.SendLane? && b in Sendable(s.rows, s.servers, s.requests, e.at) && b !in c.locked ==> b in candidates;
    assert c.lane.PollLane? && b in Pollable(s.rows, s.servers, e.at) && b !in c.locked ==> b in candidates;
  }

  /** Either claim function, called with the batch of a process, is a claim event of that process. */
  method ClaimFollows(store: DeliveryStore, ghost s: State, lane: Lane, proc: nat, batch: nat,
                      locked: set<Id>, now: Instant)
    returns (picked: set<Id>, ghost e: Event)
    requires Holds(store, s) && proc in s.procs && batch == s.procs[proc].batch && s.clock <= now
    modifies store`rows
    ensures e.at == now && e.act.Claim? && e.act == Claim(lane, proc, locked, e.act.ids) && Elements(e.act.ids) == picked
    ensures Enabled(s, e) && Holds(store, Apply(s, e))
  {
    if lane.SendLane? {
      picked := store.ClaimDeliveries(batch, locked, now);
    } else {
      picked := store.ClaimAsyncPolls(batch, locked, now);
    }
    ghost var order := Listed(picked);
    e := Event(now, Claim(lane, proc, locked, order));
  }

  /** A worker that writes the outcome of a send is a finish event. */
  method SendFollows(store: DeliveryStore, ghost s: State, proc: nat, worker: nat, id: Id, useAsync: bool,
                     resp: SendResponse, pollAgain: int, now: Instant)
    returns (ghost e: Event)
    requires Holds(store, s) && At(s.sends, Worker(proc, worker)) == [id] && s.clock <= now
    modifies store`rows
    ensures e == Event(now, FinishSend(proc, worker, id, useAsync, resp, pollAgain))
    ensures Enabled(s, e) && Holds(store, Apply(s, e))
  {
    store.HandleSend(id, useAsync, resp, pollAgain, now);
    e := Event(now, FinishSend(proc, worker, id, useAsync, resp, pollAgain));
  }

  /** The same for a poll. */
  method PollFollows(store: DeliveryStore, ghost s: State, proc: nat, worker: nat, id: Id,
                     resp: PollResponse, pollAgain: int, now: Instant)
    returns (ghost e: Event)
    requires Holds(store, s) && At(s.polls, Worker(proc, worker)) == [id] && s.clock <= now
    modifies store`rows
    ensures e == Event(now, FinishPoll(proc, worker, id, resp, pollAgain))
    ensures Enabled(s, e) && Holds(store, Apply(s, e))
  {
    store.HandlePoll(id, resp, pollAgain, now);
    e := Event(now, FinishPoll(proc, worker, id, resp, pollAgain));
  }

  /** Expanding a request is an insert event, or nothing. */
  method ExpandFollows(store: DeliveryStore, ghost s: State, requestId: int, dest: int, cc: seq<int>,
                       priority: int, ccPriority: int, now: Instant)
    returns (ok: bool, ghost e: Event)
    requires store.Valid() && Holds(store, s) && s.clock <= now
    modifies store`rows, store`nextId
    ensures store.Valid()
    ensures !ok ==> Holds(store, s)
    ensures ok ==> e.at == now && e.act.Insert? && Enabled(s, e) && Holds(store, Apply(s, e))
  {
    ok := store.Expand(requestId, dest, cc, priority, ccPriority, now);
    e := Event(now, Insert(map k | k in store.rows && k !in s.rows :: store.rows[k]));
    if ok {
      forall k | k in s.rows
        ensures k in store.rows && store.rows[k] == s.rows[k]
      {
      }
      assert (s.rows + e.act.added).Keys == store.rows.Keys;
      assert s.rows + e.act.added == store.rows;
      forall k | k in e.act.added
        ensures IsFresh(e.act.added[k])
      {
      }
    }
  }
}
