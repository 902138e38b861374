/**
 Which deliveries can still end. A dropped row is never reclaimed, so not every delivery ends;
 but a delivery that was not dropped can, in every reachable state and together with all others.
 */
module Completion {
  import opened Basics
  import opened Responses
  import opened Deliveries
  import opened ClaimOrder
  import opened WorkQueue
  import opened QueueSafety
  import opened QueueHistory
  import opened SwapRun

  /** Some process runs, and every process claims something and has workers of both kinds. */
  ghost predicate Equipped(procs: map<nat, Config>) {
    && (exists p :: p in procs)
    && forall p | p in procs :: procs[p].batch > 0 && procs[p].sendWorkers > 0 && procs[p].pollWorkers > 0
  }

  // ---------------------------------------------------------------- continuations that harm nobody

  /** Between the states no delivery was added or lost, and none that had ended changed its status. */
  ghost predicate Unharmed(s: State, t: State) {
    && t.procs == s.procs && t.rows.Keys == s.rows.Keys && At(t.sends, Lost) == At(s.sends, Lost)
    && forall id | id in s.rows && s.rows[id].Terminal() :: t.rows[id].status == s.rows[id].status
  }

  ghost predicate Continues(s0: State, es: seq<Event>, more: seq<Event>) {
    Reach(s0, es) && Reach(s0, more) && es <= more && Unharmed(End(s0, es), End(s0, more))
  }

  lemma ContinuesOn(s0: State, a: seq<Event>, b: seq<Event>, c: seq<Event>)
    requires Continues(s0, a, b) && Continues(s0, b, c)
    ensures Continues(s0, a, c)
  {
    var s, t, u := End(s0, a), End(s0, b), End(s0, c);
    forall id | id in s.rows && s.rows[id].Terminal()
      ensures u.rows[id].status == s.rows[id].status
    {
      assert t.rows[id].status == s.rows[id].status;
    }
  }

  /** The answer a kind server gives to a poll: the job is over, as the row says if it says so. */
  function KindAnswer(d: Delivery): PollResponse {
    Object(Text(if d.status.Failed? then "FAILED" else "COMPLETED"), Payload("", None))
  }

  /** Neither an insert nor a loss, and a poll is answered kindly. */
  ghost predicate Kind(s: State, e: Event) {
    && !e.act.Insert?
    && (TransitOf(e.act, SendLane).Carry? ==> TransitOf(e.act, SendLane).dst != Lost)
    && (e.act.FinishPoll? ==> e.act.id in s.rows && e.act.polled == KindAnswer(s.rows[e.act.id]))
  }

  lemma KindEffect(d: Delivery, a: RowAction, now: Instant)
    requires InPhase(d) && Guarded(d, a, now) && d.Terminal()
    requires a.Poll? ==> a.polled == KindAnswer(d)
    ensures Effect(d, a, now).status == d.status
  {
    if a.Poll? {
      PollVerdict(d, a.polled, a.pollAgain, now);
    }
  }

  lemma KindKeepsStatus(s: State, e: Event, id: Id)
    requires Inv(s) && Enabled(s, e) && Kind(s, e) && id in s.rows && s.rows[id].Terminal()
    ensures id in Apply(s, e).rows && Apply(s, e).rows[id].status == s.rows[id].status
  {
    RowStep(s, e, id);
    StepIsGuarded(s, e, id);
    KindEffect(s.rows[id], ActionOn(e, id), e.at);
  }

  lemma KindKeepsKeys(s: State, e: Event)
    requires Enabled(s, e) && Kind(s, e)
    ensures Apply(s, e).rows.Keys == s.rows.Keys
  {
    forall id
      ensures id in s.rows <==> id in Apply(s, e).rows
    {
      RowStep(s, e, id);
    }
  }

  lemma KindKeepsLost(s: State, e: Event)
    requires Enabled(s, e) && Kind(s, e)
    ensures At(Apply(s, e).sends, Lost) == At(s.sends, Lost)
  {
    EnabledFits(s, e, SendLane);
    TransitedAt(s.sends, TransitOf(e.act, SendLane), Lost);
  }

  lemma KindStep(s: State, e: Event)
    requires Inv(s) && Enabled(s, e) && Kind(s, e)
    ensures Unharmed(s, Apply(s, e))
  {
    KindKeepsKeys(s, e);
    KindKeepsLost(s, e);
    forall id | id in s.rows && s.rows[id].Terminal()
      ensures Apply(s, e).rows[id].status == s.rows[id].status
    {
      KindKeepsStatus(s, e, id);
    }
  }

  lemma Then(s0: State, es: seq<Event>, e: Event)
    requires Reach(s0, es) && Enabled(End(s0, es), e) && Kind(End(s0, es), e)
    ensures Continues(s0, es, es + [e])
    ensures End(s0, es + [e]) == Apply(End(s0, es), e)
  {
    assert Init(es + [e]) == es && Last(es + [e]) == e;
    ReachableInv(s0, es);
    KindStep(End(s0, es), e);
  }

  // ---------------------------------------------------------------- working off one lane of one process

  /** A worker finishes what it has in hand: the send is accepted, the poll answered kindly. */
  function Finish(s: State, lane: Lane, p: nat, w: nat, id: Id): Event
    requires id in s.rows
  {
    Event(s.clock,
          if lane.SendLane? then FinishSend(p, w, id, false, Http(200, "", None, ""), 0)
          else FinishPoll(p, w, id, KindAnswer(s.rows[id]), 0))
  }

  lemma HeldIsKnown(s: State, lane: Lane, p: nat, w: nat, id: Id)
    requires Inv(s) && At(HandsOf(s, lane), Worker(p, w)) == [id]
    ensures id in s.rows && (if lane.SendLane? then s.rows[id].status.Processing? else s.rows[id].WentAsync())
  {
    assert id in At(HandsOf(s, lane), Worker(p, w));
    assert id in if lane.SendLane? then InSend(s.rows) else InAsync(s.rows);
  }

  lemma FinishEnds(s: State, lane: Lane, p: nat, w: nat, id: Id)
    requires Inv(s) && At(HandsOf(s, lane), Worker(p, w)) == [id]
    ensures id in s.rows
    ensures var e := Finish(s, lane, p, w, id);
      Enabled(s, e) && Kind(s, e) && id in Apply(s, e).rows && Apply(s, e).rows[id].Terminal()
  {
    HeldIsKnown(s, lane, p, w, id);
    RowStep(s, Finish(s, lane, p, w, id), id);
    if lane.PollLane? {
      PollVerdict(s.rows[id], KindAnswer(s.rows[id]), 0, s.clock);
    }
  }

  /** The first worker of the process has the delivery in hand, or it is on its way there. */
  predicate OnTheWay(h: Hands, p: nat, id: Id) {
    id in At(h, Cursor(p)) || id in At(h, Channel(p)) || id in At(h, Worker(p, 0))
  }

  function Load(h: Hands, p: nat): nat {
    3 * |At(h, Cursor(p))| + 2 * |At(h, Channel(p))| + |At(h, Worker(p, 0))|
  }

  /** The next thing the process does about what it has in the lane. */
  function Next(s: State, lane: Lane, p: nat): Event
    requires At(HandsOf(s, lane), Worker(p, 0)) != [] ==> At(HandsOf(s, lane), Worker(p, 0))[0] in s.rows
  {
    var h := HandsOf(s, lane);
    if At(h, Worker(p, 0)) != [] then Finish(s, lane, p, 0, At(h, Worker(p, 0))[0])
    else if At(h, Channel(p)) != [] then Event(s.clock, Take(lane, p, 0))
    else Event(s.clock, Dispatch(lane, p))
  }

  /** The three transits that bring a delivery nearer to the worker's hands, and out of them. */
  predicate Forward(p: nat, tr: Transit) {
    tr == Yield(Worker(p, 0)) || tr == Carry(Channel(p), Worker(p, 0)) || tr == Carry(Cursor(p), Channel(p))
  }

  lemma ForwardLightens(h: Hands, p: nat, tr: Transit, id: Id)
    requires Forward(p, tr) && Fits(h, tr) && OnTheWay(h, p, id)
    ensures Load(Transited(h, tr), p) < Load(h, p)
    ensures OnTheWay(Transited(h, tr), p, id) || (tr.Yield? && At(h, tr.src)[0] == id)
  {
    TransitedAt(h, tr, Cursor(p));
    TransitedAt(h, tr, Channel(p));
    TransitedAt(h, tr, Worker(p, 0));
    assert At(h, tr.src) == [At(h, tr.src)[0]] + At(h, tr.src)[1..];
  }

  lemma TakeIsForward(s: State, lane: Lane, p: nat)
    requires Equipped(s.procs) && p in s.procs
    requires At(HandsOf(s, lane), Worker(p, 0)) == [] && At(HandsOf(s, lane), Channel(p)) != []
    ensures var e := Event(s.clock, Take(lane, p, 0));
      Enabled(s, e) && Kind(s, e) && Forward(p, TransitOf(e.act, lane)) && !TransitOf(e.act, lane).Yield?
  {
  }

  lemma DispatchIsForward(s: State, lane: Lane, p: nat)
    requires Equipped(s.procs) && p in s.procs
    requires At(HandsOf(s, lane), Channel(p)) == [] && At(HandsOf(s, lane), Cursor(p)) != []
    ensures var e := Event(s.clock, Dispatch(lane, p));
      Enabled(s, e) && Kind(s, e) && Forward(p, TransitOf(e.act, lane)) && !TransitOf(e.act, lane).Yield?
  {
  }

  /** In reachable states it is possible, kind, and brings the delivery nearer to its end. */
  lemma NextIsForward(s: State, lane: Lane, p: nat, id: Id)
    requires Inv(s) && Equipped(s.procs) && p in s.procs && OnTheWay(HandsOf(s, lane), p, id)
    ensures At(HandsOf(s, lane), Worker(p, 0)) != [] ==> At(HandsOf(s, lane), Worker(p, 0))[0] in s.rows
    ensures var e := Next(s, lane, p);
      && Enabled(s, e) && Kind(s, e) && Forward(p, TransitOf(e.act, lane))
      && (TransitOf(e.act, lane).Yield? ==>
            var x := At(HandsOf(s, lane), Worker(p, 0))[0];
            x in Apply(s, e).rows && Apply(s, e).rows[x].Terminal())
  {
    var held := At(HandsOf(s, lane), Worker(p, 0));
    if held != [] {
      assert held == [held[0]];
      FinishEnds(s, lane, p, 0, held[0]);
    } else if At(HandsOf(s, lane), Channel(p)) != [] {
      TakeIsForward(s, lane, p);
    } else {
      DispatchIsForward(s, lane, p);
    }
  }

  lemma {:induction false} WorkOff(s0: State, es: seq<Event>, lane: Lane, p: nat, id: Id) returns (more: seq<Event>)
    requires Reach(s0, es) && Equipped(End(s0, es).procs) && p in End(s0, es).procs
    requires OnTheWay(HandsOf(End(s0, es), lane), p, id)
    ensures Continues(s0, es, more)
    ensures id in End(s0, more).rows && End(s0, more).rows[id].Terminal()
    decreases Load(HandsOf(End(s0, es), lane), p)
  {
    var s := End(s0, es);
    ReachableInv(s0, es);
    NextIsForward(s, lane, p, id);
    var e := Next(s, lane, p);
    EnabledFits(s, e, lane);
    ForwardLightens(HandsOf(s, lane), p, TransitOf(e.act, lane), id);
    Then(s0, es, e);
    if id in Apply(s, e).rows && Apply(s, e).rows[id].Terminal() {
      more := es + [e];
    } else {
      more := WorkOff(s0, es + [e], lane, p, id);
      ContinuesOn(s0, es, es + [e], more);
    }
  }

  // ---------------------------------------------------------------- one delivery

  /** The delivery is made eligible: its server and its request are not suspended. */
  function Resume(s: State, id: Id): Event
    requires id in s.rows
  {
    Event(s.clock, Configure(s.servers[s.rows[id].serverId := false], s.requests[s.rows[id].requestId := false]))
  }

  /** The server and the request of the delivery exist and are not suspended. */
  predicate Live(s: State, id: Id)
    requires id in s.rows
  {
    var d := s.rows[id];
    d.serverId in s.servers && !s.servers[d.serverId] && d.requestId in s.requests && !s.requests[d.requestId]
  }

  /** When the delivery is due, a claim that finds every other row locked picks it. */
  function ClaimOnly(s: State, lane: Lane, p: nat, id: Id): Event
    requires id in s.rows
  {
    Event(Max(s.clock, s.rows[id].nextRunAt), Claim(lane, p, s.rows.Keys - {id}, [id]))
  }

  lemma OnlyClaimable(s: State, lane: Lane, id: Id, now: Instant)
    requires id in s.rows && s.rows[id].nextRunAt <= now
    requires if lane.SendLane? then s.rows[id].status.Ready? else s.rows[id].status.AwaitingAsync?
    requires Live(s, id)
    ensures Claimable(s, lane, s.rows.Keys - {id}, now) == {id}
  {
    assert id in Claimable(s, lane, s.rows.Keys - {id}, now);
    assert Claimable(s, lane, s.rows.Keys - {id}, now) <= s.rows.Keys;
  }

  lemma ClaimOnlyIsEnabled(s: State, lane: Lane, p: nat, id: Id)
    requires id in s.rows && p in s.procs && s.procs[p].batch > 0
    requires if lane.SendLane? then s.rows[id].status.Ready? else s.rows[id].status.AwaitingAsync?
    requires Live(s, id)
    ensures Enabled(s, ClaimOnly(s, lane, p, id)) && Kind(s, ClaimOnly(s, lane, p, id))
  {
    OnlyClaimable(s, lane, id, Max(s.clock, s.rows[id].nextRunAt));
    assert Elements([id]) == {id};
  }

  lemma PickedUp(s0: State, es: seq<Event>, lane: Lane, p: nat, id: Id) returns (more: seq<Event>)
    requires Reach(s0, es) && id in End(s0, es).rows && p in End(s0, es).procs && End(s0, es).procs[p].batch > 0
    requires if lane.SendLane? then End(s0, es).rows[id].status.Ready? else End(s0, es).rows[id].status.AwaitingAsync?
    ensures Continues(s0, es, more) && OnTheWay(HandsOf(End(s0, more), lane), p, id)
  {
    var s := End(s0, es);
    Then(s0, es, Resume(s, id));
    var r := Apply(s, Resume(s, id));
    ClaimOnlyIsEnabled(r, lane, p, id);
    var e := ClaimOnly(r, lane, p, id);
    Then(s0, es + [Resume(s, id)], e);
    more := es + [Resume(s, id)] + [e];
    ContinuesOn(s0, es, es + [Resume(s, id)], more);
    TransitedAt(HandsOf(r, lane), TransitOf(e.act, lane), Cursor(p));
  }

  /** A delivery held at a place other than Lost. */
  lemma HeldCanEnd(s0: State, es: seq<Event>, pl: Place, id: Id) returns (more: seq<Event>)
    requires Reach(s0, es) && Equipped(End(s0, es).procs)
    requires pl != Lost && id in At(End(s0, es).sends, pl)
    ensures Continues(s0, es, more)
    ensures id in End(s0, more).rows && End(s0, more).rows[id].Terminal()
  {
    var s := End(s0, es);
    ReachableInv(s0, es);
    if pl.Worker? {
      assert At(s.sends, pl) == [id];
      FinishEnds(s, SendLane, pl.proc, pl.worker, id);
      Then(s0, es, Finish(s, SendLane, pl.proc, pl.worker, id));
      more := es + [Finish(s, SendLane, pl.proc, pl.worker, id)];
    } else {
      more := WorkOff(s0, es, SendLane, pl.proc, id);
    }
  }

  /** A delivery that was not dropped has a continuation that ends it and harms no other. */
  lemma OneCanEnd(s0: State, es: seq<Event>, id: Id) returns (more: seq<Event>)
    requires Reach(s0, es) && Equipped(End(s0, es).procs)
    requires id in End(s0, es).rows && id !in At(End(s0, es).sends, Lost)
    ensures Continues(s0, es, more)
    ensures id in End(s0, more).rows && End(s0, more).rows[id].Terminal()
  {
    var s := End(s0, es);
    ReachableInv(s0, es);
    match s.rows[id].status
    case Done => more := es;
    case Failed => more := es;
    case Processing =>
      assert id in InSend(s.rows);
      var pl :| id in At(s.sends, pl);
      more := HeldCanEnd(s0, es, pl, id);
    case Ready =>
      var p :| p in s.procs;
      var claimed := PickedUp(s0, es, SendLane, p, id);
      more := WorkOff(s0, claimed, SendLane, p, id);
      ContinuesOn(s0, es, claimed, more);
    case AwaitingAsync =>
      var p :| p in s.procs;
      var claimed := PickedUp(s0, es, PollLane, p, id);
      more := WorkOff(s0, claimed, PollLane, p, id);
      ContinuesOn(s0, es, claimed, more);
  }

  // ---------------------------------------------------------------- all deliveries

  /** The deliveries that have not ended and were not dropped. */
  function Open(s: State): set<Id> {
    set id | id in s.rows && !s.rows[id].Terminal() && id !in At(s.sends, Lost)
  }

  lemma EndingShrinks(s: State, t: State, id: Id)
    requires Unharmed(s, t) && id in Open(s) && t.rows[id].Terminal()
    ensures Open(t) < Open(s)
  {
    forall i | i in Open(t)
      ensures i in Open(s) && i != id
    {
      assert i in s.rows;
    }
  }

  /**
   From every reachable state one continuation ends every delivery that was not dropped; it adds
   none, drops none and changes no status that was final.
   */
  lemma {:induction false} AllCanEnd(s0: State, es: seq<Event>) returns (more: seq<Event>)
    requires Reach(s0, es) && Equipped(End(s0, es).procs)
    ensures Continues(s0, es, more)
    ensures forall id | id in End(s0, more).rows ::
      End(s0, more).rows[id].Terminal() <==> id !in At(End(s0, es).sends, Lost)
    decreases |Open(End(s0, es))|
  {
    var s := End(s0, es);
    ReachableInv(s0, es);
    if Open(s) == {} {
      more := es;
      forall id | id in s.rows
        ensures s.rows[id].Terminal() <==> id !in At(s.sends, Lost)
      {
        if id in At(s.sends, Lost) {
          LostIsProcessing(s, id);
        } else {
          assert id !in Open(s);
        }
      }
    } else {
      var id := Element(Open(s));
      var ended := OneCanEnd(s0, es, id);
      EndingShrinks(s, End(s0, ended), id);
      SubsetSize(Open(End(s0, ended)), Open(s));
      more := AllCanEnd(s0, ended);
      ContinuesOn(s0, es, ended, more);
    }
  }

  ghost predicate EndsIn(s0: State, more: seq<Event>, id: Id)
    requires Reach(s0, more)
  {
    id in End(s0, more).rows && End(s0, more).rows[id].Terminal()
  }

  ghost predicate CanEnd(s0: State, es: seq<Event>, id: Id) {
    exists more :: es <= more && Reach(s0, more) && EndsIn(s0, more, id)
  }

  lemma DroppedNeverEnds(s0: State, es: seq<Event>, more: seq<Event>, id: Id)
    requires Reach(s0, more) && es <= more && IsRun(s0, es) && id in At(End(s0, es).sends, Lost)
    ensures !EndsIn(s0, more, id)
  {
    assert more[..|es|] == es && more[..|more|] == more;
    assert StateAt(s0, more, |es|) == End(s0, es) && StateAt(s0, more, |more|) == End(s0, more);
    DroppedStaysProcessing(s0, more, |es|, |more|, id);
  }

  /** A delivery can still end exactly when its row was not dropped. */
  lemma CanStillEndIff(s0: State, es: seq<Event>, id: Id)
    requires Reach(s0, es) && Equipped(End(s0, es).procs) && id in End(s0, es).rows
    ensures CanEnd(s0, es, id) <==> id !in At(End(s0, es).sends, Lost)
  {
    if id in At(End(s0, es).sends, Lost) {
      forall more | es <= more && Reach(s0, more)
        ensures !EndsIn(s0, more, id)
      {
        DroppedNeverEnds(s0, es, more, id);
      }
    } else {
      var more := OneCanEnd(s0, es, id);
      assert EndsIn(s0, more, id);
    }
  }

  // ---------------------------------------------------------------- losses

  /** The event that drops the head of a place. */
  function DropHead(s: State, pl: Place): Event
    requires pl != Lost
  {
    Event(s.clock, match pl
                   case Cursor(p) => Drop(SendLane, p)
                   case Channel(p) => Strand(SendLane, p)
                   case Worker(p, w) => Abandon(SendLane, p, w))
  }

  lemma HeadCanBeDropped(s: State, pl: Place)
    requires pl != Lost && |At(s.sends, pl)| > 0
    ensures var e := DropHead(s, pl);
      Enabled(s, e) && At(Apply(s, e).sends, pl) == At(s.sends, pl)[1..] && At(s.sends, pl)[0] in At(Apply(s, e).sends, Lost)
  {
    var e := DropHead(s, pl);
    EnabledFits(s, e, SendLane);
    TransitedAt(s.sends, TransitOf(e.act, SendLane), pl);
    TransitedAt(s.sends, TransitOf(e.act, SendLane), Lost);
  }

  /** No claimed row is safe: wherever it is held, dropping what lies before it and then itself is possible. */
  lemma {:induction false} HeldCanBeLost(s0: State, es: seq<Event>, pl: Place, id: Id) returns (more: seq<Event>)
    requires Reach(s0, es) && pl != Lost && id in At(End(s0, es).sends, pl)
    ensures es <= more && Reach(s0, more) && id in At(End(s0, more).sends, Lost)
    decreases |At(End(s0, es).sends, pl)|
  {
    var s := End(s0, es);
    var e, held := DropHead(s, pl), At(s.sends, pl);
    HeadCanBeDropped(s, pl);
    assert Init(es + [e]) == es && Last(es + [e]) == e;
    if held[0] == id {
      more := es + [e];
    } else {
      assert held == [held[0]] + held[1..];
      more := HeldCanBeLost(s0, es + [e], pl, id);
    }
  }

  /** A claimed row that fails to scan: from then on no continuation ends the delivery. */
  lemma NotEveryDeliveryEnds()
    ensures exists es ::
      Reach(START, es) && Equipped(End(START, es).procs) && 1 in End(START, es).rows && !CanEnd(START, es, 1)
  {
    var es, s := Fetch();
    var drop := Event(0, Drop(SendLane, 0));
    Extend(es, s, drop);
    TransitedAt(s.sends, TransitOf(drop.act, SendLane), Lost);
    var t := Apply(s, drop);
    assert 1 in At(t.sends, Lost);
    assert 0 in t.procs;
    CanStillEndIff(START, es + [drop], 1);
  }
}
