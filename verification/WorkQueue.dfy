/**
 The worker protocol: any number of processes, each a claimer, two bounded channels and its
 send and poll workers, over one deliveries table. Every SQL call, channel operation and
 drop is one atomic event; a run is any interleaving of enabled events under a clock that
 does not go back. What the environment chooses (responses, locked rows, row order, failing
 limiters) is carried by the event.
 */
module WorkQueue {
  import opened Basics
  import opened Responses
  import opened Deliveries
  import opened ClaimOrder

  /** Where a claimed row can be: read from the query, in the channel, with a worker, or dropped. */
  datatype Place = Cursor(proc: nat) | Channel(proc: nat) | Worker(proc: nat, worker: nat) | Lost

  type Hands = map<Place, seq<Id>>

  function At(h: Hands, pl: Place): seq<Id> {
    if pl in h then h[pl] else []
  }

  /** ClaimBatch, SendWorkers and PollWorkers of one process. */
  datatype Config = Config(batch: nat, sendWorkers: nat, pollWorkers: nat)

  datatype State = State(
    clock: Instant,
    rows: Table,
    servers: map<int, bool>,
    requests: map<int, bool>,
    procs: map<nat, Config>,
    sends: Hands,
    polls: Hands)

  datatype Lane = SendLane | PollLane

  datatype Action =
    | Insert(added: Table)
    | Configure(servers: map<int, bool>, requests: map<int, bool>)
    | Claim(lane: Lane, proc: nat, locked: set<Id>, ids: seq<Id>)
    | Dispatch(lane: Lane, proc: nat)
    | Drop(lane: Lane, proc: nat)
    | Strand(lane: Lane, proc: nat)
    | Take(lane: Lane, proc: nat, worker: nat)
    | Abandon(lane: Lane, proc: nat, worker: nat)
    | FinishSend(proc: nat, worker: nat, id: Id, useAsync: bool, sent: SendResponse, pollAgain: int)
    | FinishPoll(proc: nat, worker: nat, id: Id, polled: PollResponse, pollAgain: int)

  datatype Event = Event(at: Instant, act: Action)

  // ---------------------------------------------------------------- steps

  function HandsOf(s: State, lane: Lane): Hands {
    if lane.SendLane? then s.sends else s.polls
  }

  function WorkersOf(s: State, lane: Lane, proc: nat): nat
    requires proc in s.procs
  {
    if lane.SendLane? then s.procs[proc].sendWorkers else s.procs[proc].pollWorkers
  }

  /** The rows a claim of this lane may pick at time now. */
  function Claimable(s: State, lane: Lane, locked: set<Id>, now: Instant): set<Id> {
    (if lane.SendLane? then Sendable(s.rows, s.servers, s.requests, now)
     else Pollable(s.rows, s.servers, now)) - locked
  }

  function OrderOf(lane: Lane): Order {
    if lane.SendLane? then SendOrder else PollOrder
  }

  predicate NoDup(ids: seq<Id>) {
    forall i, j | 0 <= i < j < |ids| :: ids[i] != ids[j]
  }

  /** Elements of a sequence as a set. */
  function Elements(ids: seq<Id>): set<Id> {
    set id | id in ids
  }

  /** RETURNING gives the picked rows in no particular order. */
  ghost predicate ClaimEnabled(s: State, e: Event)
    requires e.act.Claim?
  {
    var c := e.act;
    && c.proc in s.procs
    && NoDup(c.ids)
    && Elements(c.ids) <= Claimable(s, c.lane, c.locked, e.at)
    && IsTop(OrderOf(c.lane), s.rows, Claimable(s, c.lane, c.locked, e.at), s.procs[c.proc].batch, Elements(c.ids))
  }

  ghost predicate Enabled(s: State, e: Event) {
    s.clock <= e.at &&
    match e.act
    case Insert(added) =>
      added.Keys !! s.rows.Keys && forall id | id in added :: IsFresh(added[id])
    case Configure(_, _) => true
    case Claim(_, _, _, _) => ClaimEnabled(s, e)
    case Dispatch(lane, p) =>
      // a full channel blocks the claimer
      && p in s.procs
      && |At(HandsOf(s, lane), Cursor(p))| > 0
      && |At(HandsOf(s, lane), Channel(p))| < 2 * s.procs[p].batch
    case Drop(lane, p) =>
      // scan error or cancelled context
      |At(HandsOf(s, lane), Cursor(p))| > 0
    case Strand(lane, p) =>
      // the process stops with rows in its channel
      |At(HandsOf(s, lane), Channel(p))| > 0
    case Take(lane, p, w) =>
      && p in s.procs && w < WorkersOf(s, lane, p)
      && |At(HandsOf(s, lane), Channel(p))| > 0
      && At(HandsOf(s, lane), Worker(p, w)) == []
    case Abandon(lane, p, w) =>
      // limiter error, or a database call that failed
      |At(HandsOf(s, lane), Worker(p, w))| > 0
    case FinishSend(p, w, id, _, _, _) => At(s.sends, Worker(p, w)) == [id]
    case FinishPoll(p, w, id, _, _) => At(s.polls, Worker(p, w)) == [id]
  }

  /** What an action does to the rows in transit of one lane. */
  datatype Transit =
    | Stay
    | Carry(src: Place, dst: Place)   // the head of one place goes to the tail of another
    | Gain(dst: Place, ids: seq<Id>)
    | Yield(src: Place)               // the head of a place is done with

  function TransitOf(a: Action, lane: Lane): Transit {
    match a
    case Claim(l, p, _, ids) => if l == lane then Gain(Cursor(p), ids) else Stay
    case Dispatch(l, p) => if l == lane then Carry(Cursor(p), Channel(p)) else Stay
    case Drop(l, p) => if l == lane then Carry(Cursor(p), Lost) else Stay
    case Strand(l, p) => if l == lane then Carry(Channel(p), Lost) else Stay
    case Take(l, p, w) => if l == lane then Carry(Channel(p), Worker(p, w)) else Stay
    case Abandon(l, p, w) => if l == lane then Carry(Worker(p, w), Lost) else Stay
    case FinishSend(p, w, _, _, _, _) => if lane.SendLane? then Yield(Worker(p, w)) else Stay
    case FinishPoll(p, w, _, _, _) => if lane.PollLane? then Yield(Worker(p, w)) else Stay
    case _ => Stay
  }

  /** The places a transit takes from hold something, and nothing ever leaves Lost. */
  predicate Fits(h: Hands, tr: Transit) {
    match tr
    case Carry(src, dst) => |At(h, src)| > 0 && src != dst && src != Lost
    case Yield(src) => |At(h, src)| > 0 && src != Lost
    case _ => true
  }

  function Pop(h: Hands, pl: Place): Hands
    requires |At(h, pl)| > 0
  {
    h[pl := At(h, pl)[1..]]
  }

  function Push(h: Hands, pl: Place, ids: seq<Id>): Hands {
    h[pl := At(h, pl) + ids]
  }

  function Move(h: Hands, src: Place, dst: Place): Hands
    requires |At(h, src)| > 0
  {
    Push(Pop(h, src), dst, [At(h, src)[0]])
  }

  function Transited(h: Hands, tr: Transit): Hands
    requires Fits(h, tr)
  {
    match tr
    case Stay => h
    case Carry(src, dst) => Move(h, src, dst)
    case Gain(dst, ids) => Push(h, dst, ids)
    case Yield(src) => Pop(h, src)
  }

  /** The effect of an action on the rows in transit of one lane. */
  ghost function HandsAfter(s: State, e: Event, lane: Lane): Hands
    requires Enabled(s, e)
  {
    Transited(HandsOf(s, lane), TransitOf(e.act, lane))
  }

  ghost function RowsAfter(s: State, e: Event): Table {
    match e.act
    case Insert(added) => s.rows + added
    case Claim(SendLane, _, _, ids) => ClaimRows(s.rows, Elements(ids), e.at)
    case Claim(PollLane, _, _, ids) => TouchRows(s.rows, Elements(ids), e.at)
    case FinishSend(_, _, id, useAsync, resp, again) =>
      Write(s.rows, id, d => AfterSend(d, Decide(useAsync, resp), again, e.at))
    case FinishPoll(_, _, id, resp, again) =>
      Write(s.rows, id, d => AfterPoll(d, resp, again, e.at))
    case _ => s.rows
  }

  ghost function Apply(s: State, e: Event): State
    requires Enabled(s, e)
  {
    State(
      e.at,
      RowsAfter(s, e),
      if e.act.Configure? then e.act.servers else s.servers,
      if e.act.Configure? then e.act.requests else s.requests,
      s.procs,
      HandsAfter(s, e, SendLane),
      HandsAfter(s, e, PollLane))
  }

  // ---------------------------------------------------------------- runs

  ghost predicate Initial(s: State) {
    s.rows == map[] && s.sends == map[] && s.polls == map[]
  }

  ghost predicate IsRun(s0: State, es: seq<Event>)
    decreases |es|, 0
  {
    es == [] || (IsRun(s0, Init(es)) && Enabled(End(s0, Init(es)), Last(es)))
  }

  ghost function End(s0: State, es: seq<Event>): State
    requires IsRun(s0, es)
    decreases |es|, 1
  {
    if es == [] then s0 else Apply(End(s0, Init(es)), Last(es))
  }

  /** A run that starts with an empty table and nothing in transit. */
  ghost predicate Reach(s0: State, es: seq<Event>) {
    Initial(s0) && IsRun(s0, es)
  }

  lemma {:induction false} PrefixIsRun(s0: State, es: seq<Event>, k: nat)
    requires IsRun(s0, es) && k <= |es|
    ensures IsRun(s0, es[..k])
    decreases |es|
  {
    if k < |es| {
      PrefixIsRun(s0, Init(es), k);
      assert Init(es)[..k] == es[..k];
    } else {
      assert es[..k] == es;
    }
  }

  /** The state after the first k events. */
  ghost function StateAt(s0: State, es: seq<Event>, k: nat): State
    requires IsRun(s0, es) && k <= |es|
  {
    PrefixIsRun(s0, es, k);
    End(s0, es[..k])
  }

  lemma StateAtNext(s0: State, es: seq<Event>, k: nat)
    requires IsRun(s0, es) && k < |es|
    ensures Enabled(StateAt(s0, es, k), es[k])
    ensures StateAt(s0, es, k + 1) == Apply(StateAt(s0, es, k), es[k])
  {
    PrefixIsRun(s0, es, k + 1);
    assert Init(es[..k + 1]) == es[..k];
  }

  // ---------------------------------------------------------------- one delivery

  /** What an event does to one delivery. */
  datatype RowAction =
    | Skip
    | Pick
    | Touch
    | Send(useAsync: bool, sent: SendResponse, pollAgain: int)
    | Poll(polled: PollResponse, pollAgain: int)

  ghost function ActionOn(e: Event, id: Id): RowAction {
    match e.act
    case Claim(SendLane, _, _, ids) => if id in ids then Pick else Skip
    case Claim(PollLane, _, _, ids) => if id in ids then Touch else Skip
    case FinishSend(_, _, i, useAsync, resp, again) => if i == id then Send(useAsync, resp, again) else Skip
    case FinishPoll(_, _, i, resp, again) => if i == id then Poll(resp, again) else Skip
    case _ => Skip
  }

  function Effect(d: Delivery, a: RowAction, now: Instant): Delivery {
    match a
    case Skip => d
    case Pick => Claimed(d, now)
    case Touch => Touched(d, now)
    case Send(useAsync, resp, again) => AfterSend(d, Decide(useAsync, resp), again, now)
    case Poll(resp, again) => AfterPoll(d, resp, again, now)
  }

  /** An event moves each delivery on its own, and only Insert adds one. */
  lemma RowStep(s: State, e: Event, id: Id)
    requires Enabled(s, e)
    ensures id in s.rows ==> id in Apply(s, e).rows && Apply(s, e).rows[id] == Effect(s.rows[id], ActionOn(e, id), e.at)
    ensures id !in s.rows && id in Apply(s, e).rows ==>
      e.act.Insert? && id in e.act.added && IsFresh(Apply(s, e).rows[id])
  {
  }
}
