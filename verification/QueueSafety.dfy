/**
 What every step of the protocol keeps: each processing delivery is held at exactly one
 place, polls only ever concern deliveries whose async job was started, and channels and
 workers stay within their capacity.
 */
module QueueSafety {
  import opened Basics
  import opened Responses
  import opened Deliveries
  import opened ClaimOrder
  import opened WorkQueue

  // ---------------------------------------------------------------- rows in transit

  /** The places of h hold the ids of owned, each once and nowhere twice, and no others. */
  ghost predicate Partition(h: Hands, owned: set<Id>) {
    && (forall pl :: NoDup(At(h, pl)))
    && (forall a, b, id :: id in At(h, a) && id in At(h, b) ==> a == b)
    && (forall a, id :: id in At(h, a) ==> id in owned)
    && (forall id :: id in owned ==> exists a :: id in At(h, a))
  }

  ghost predicate Within(h: Hands, allowed: set<Id>) {
    forall a, id :: id in At(h, a) ==> id in allowed
  }

  lemma NoDupTail(ids: seq<Id>)
    requires NoDup(ids) && |ids| > 0
    ensures NoDup(ids[1..]) && ids[0] !in ids[1..]
  {
  }

  lemma NoDupAppend(a: seq<Id>, b: seq<Id>)
    requires NoDup(a) && NoDup(b) && forall id | id in a :: id !in b
    ensures NoDup(a + b)
  {
    forall i, j | 0 <= i < j < |a + b|
      ensures (a + b)[i] != (a + b)[j]
    {
      if i < |a| <= j {
        assert a[i] in a && b[j - |a|] in b;
      }
    }
  }

  /** What a place holds after a transit. */
  lemma TransitedAt(h: Hands, tr: Transit, pl: Place)
    requires Fits(h, tr)
    ensures At(Transited(h, tr), pl) == match tr
      case Stay => At(h, pl)
      case Carry(src, dst) =>
        if pl == src then At(h, src)[1..] else if pl == dst then At(h, dst) + [At(h, src)[0]] else At(h, pl)
      case Gain(dst, ids) => if pl == dst then At(h, dst) + ids else At(h, pl)
      case Yield(src) => if pl == src then At(h, src)[1..] else At(h, pl)
  {
  }

  /** No transit brings in an id but by a gain, and what sits in Lost stays there. */
  lemma TransitedElements(h: Hands, tr: Transit, pl: Place, id: Id)
    requires Fits(h, tr)
    ensures id in At(Transited(h, tr), pl) ==>
      id in At(h, pl) || (tr.Carry? && pl == tr.dst && id in At(h, tr.src)) || (tr.Gain? && pl == tr.dst && id in tr.ids)
    ensures id in At(h, Lost) ==> id in At(Transited(h, tr), Lost)
  {
    TransitedAt(h, tr, pl);
    TransitedAt(h, tr, Lost);
  }

  /** In a partition, carrying one row changes the whereabouts of that row only. */
  lemma MovedMember(h: Hands, src: Place, dst: Place, owned: set<Id>, pl: Place, id: Id)
    requires Partition(h, owned) && |At(h, src)| > 0 && src != dst
    ensures id in At(Move(h, src, dst), pl) <==> if id == At(h, src)[0] then pl == dst else id in At(h, pl)
  {
    var x := At(h, src)[0];
    assert At(h, src) == [x] + At(h, src)[1..];
    NoDupTail(At(h, src));
    assert x in At(h, src);
    assert At(Move(h, src, dst), pl)
        == if pl == src then At(h, src)[1..] else if pl == dst then At(h, dst) + [x] else At(h, pl);
  }

  lemma MovedNoDup(h: Hands, src: Place, dst: Place, owned: set<Id>, pl: Place)
    requires Partition(h, owned) && |At(h, src)| > 0 && src != dst
    ensures NoDup(At(Move(h, src, dst), pl))
  {
    var x := At(h, src)[0];
    assert x in At(h, src);
    NoDupTail(At(h, src));
    NoDupAppend(At(h, dst), [x]);
    assert At(Move(h, src, dst), pl)
        == if pl == src then At(h, src)[1..] else if pl == dst then At(h, dst) + [x] else At(h, pl);
  }

  lemma MoveKeepsPartition(h: Hands, src: Place, dst: Place, owned: set<Id>)
    requires Partition(h, owned) && |At(h, src)| > 0 && src != dst
    ensures Partition(Move(h, src, dst), owned)
  {
    var m, x := Move(h, src, dst), At(h, src)[0];
    assert x in At(h, src);
    forall pl
      ensures NoDup(At(m, pl))
    {
      MovedNoDup(h, src, dst, owned, pl);
    }
    forall pl, id
      ensures id in At(m, pl) <==> if id == x then pl == dst else id in At(h, pl)
    {
      MovedMember(h, src, dst, owned, pl, id);
    }
    forall id | id in owned
      ensures exists a :: id in At(m, a)
    {
      var a :| id in At(h, a);
      assert id in At(m, if id == x then dst else a);
    }
  }

  lemma PushedNoDup(h: Hands, pl: Place, ids: seq<Id>, owned: set<Id>, a: Place)
    requires Partition(h, owned) && NoDup(ids) && Elements(ids) !! owned
    ensures NoDup(At(Push(h, pl, ids), a))
  {
    assert At(Push(h, pl, ids), a) == if a == pl then At(h, pl) + ids else At(h, a);
    if a == pl {
      forall id | id in At(h, pl)
        ensures id !in ids
      {
        assert id in owned && (id in ids ==> id in Elements(ids));
      }
      NoDupAppend(At(h, pl), ids);
    }
  }

  lemma PushedMember(h: Hands, pl: Place, ids: seq<Id>, owned: set<Id>, a: Place, id: Id)
    requires Partition(h, owned) && Elements(ids) !! owned
    ensures id in At(Push(h, pl, ids), a) <==> if id in Elements(ids) then a == pl else id in At(h, a)
  {
    assert At(Push(h, pl, ids), a) == if a == pl then At(h, pl) + ids else At(h, a);
    assert id in At(h, a) ==> id in owned;
  }

  lemma PushKeepsPartition(h: Hands, pl: Place, ids: seq<Id>, owned: set<Id>)
    requires Partition(h, owned) && NoDup(ids) && Elements(ids) !! owned
    ensures Partition(Push(h, pl, ids), owned + Elements(ids))
  {
    var m, added := Push(h, pl, ids), Elements(ids);
    forall a
      ensures NoDup(At(m, a))
    {
      PushedNoDup(h, pl, ids, owned, a);
    }
    forall a, id
      ensures id in At(m, a) <==> if id in added then a == pl else id in At(h, a)
    {
      PushedMember(h, pl, ids, owned, a, id);
    }
    forall id | id in owned + added
      ensures exists a :: id in At(m, a)
    {
      if id in added {
        assert id in At(m, pl);
      } else {
        var a :| id in At(h, a);
        assert id in At(m, a);
      }
    }
    forall a, b, id | id in At(m, a) && id in At(m, b)
      ensures a == b
    {
      assert id !in added ==> id in At(h, a) && id in At(h, b);
    }
  }

  lemma PopKeepsPartition(h: Hands, pl: Place, id: Id, owned: set<Id>)
    requires Partition(h, owned) && At(h, pl) == [id]
    ensures id in owned && Partition(Pop(h, pl), owned - {id})
  {
    var m := Pop(h, pl);
    assert id in At(h, pl);
    forall a
      ensures At(m, a) == if a == pl then [] else At(h, a)
    {
    }
    forall i | i in owned - {id}
      ensures exists a :: i in At(m, a)
    {
      var a :| i in At(h, a);
      assert i in At(m, a);
    }
  }

  lemma TransitKeepsWithin(h: Hands, tr: Transit, allowed: set<Id>)
    requires Within(h, allowed) && Fits(h, tr)
    requires tr.Gain? ==> forall id | id in tr.ids :: id in allowed
    ensures Within(Transited(h, tr), allowed)
  {
    forall pl, id | id in At(Transited(h, tr), pl)
      ensures id in allowed
    {
      TransitedElements(h, tr, pl, id);
    }
  }

  // ---------------------------------------------------------------- the invariant

  /** The deliveries in state processing. */
  function InSend(rows: Table): set<Id> {
    set id | id in rows && rows[id].status.Processing?
  }

  /** The deliveries that went through start_async_delivery. */
  function InAsync(rows: Table): set<Id> {
    set id | id in rows && rows[id].WentAsync()
  }

  /** A job id is present while waiting for the job and absent before the send is over. */
  predicate InPhase(d: Delivery) {
    && (d.status.AwaitingAsync? ==> d.WentAsync())
    && (d.status.Ready? || d.status.Processing? ==> !d.WentAsync())
  }

  ghost predicate FitsCapacity(h: Hands, procs: map<nat, Config>) {
    && (forall p :: |At(h, Cursor(p))| > 0 ==> p in procs)
    && (forall p :: |At(h, Channel(p))| <= if p in procs then 2 * procs[p].batch else 0)
    && (forall p, w :: |At(h, Worker(p, w))| <= 1)
  }

  ghost predicate Inv(s: State) {
    && Partition(s.sends, InSend(s.rows))
    && Within(s.polls, InAsync(s.rows))
    && (forall id | id in s.rows :: InPhase(s.rows[id]))
    && FitsCapacity(s.sends, s.procs)
    && FitsCapacity(s.polls, s.procs)
  }

  /** What the protocol guarantees the unguarded SQL updates about the row they hit. */
  predicate Guarded(d: Delivery, a: RowAction, now: Instant) {
    match a
    case Skip => true
    case Pick => d.status.Ready? && d.nextRunAt <= now
    case Touch => d.status.AwaitingAsync?
    case Send(_, _, _) => d.status.Processing?
    case Poll(_, _) => d.WentAsync() && (d.status.AwaitingAsync? || d.Terminal())
  }

  /** An enabled action takes from places that hold something. */
  lemma EnabledFits(s: State, e: Event, lane: Lane)
    requires Enabled(s, e)
    ensures Fits(HandsOf(s, lane), TransitOf(e.act, lane))
  {
  }

  lemma ClaimedAt(s: State, e: Event, id: Id)
    requires Enabled(s, e) && e.act.Claim? && id in e.act.ids
    ensures id in s.rows
    ensures if e.act.lane.SendLane? then s.rows[id].status.Ready? else s.rows[id].status.AwaitingAsync?
    ensures s.rows[id].nextRunAt <= e.at
  {
    assert id in Elements(e.act.ids);
    assert id in Claimable(s, e.act.lane, e.act.locked, e.at);
  }

  lemma StepIsGuarded(s: State, e: Event, id: Id)
    requires Inv(s) && Enabled(s, e) && id in s.rows
    ensures Guarded(s.rows[id], ActionOn(e, id), e.at)
  {
    match e.act
    case Claim(lane, p, locked, ids) =>
      if id in ids {
        ClaimedAt(s, e, id);
      }
    case FinishSend(p, w, i, _, _, _) =>
      assert i in At(s.sends, Worker(p, w));
      assert i in InSend(s.rows);
    case FinishPoll(p, w, i, _, _) =>
      assert i in At(s.polls, Worker(p, w));
      assert i in InAsync(s.rows);
    case _ =>
  }

  /** The five guarded transitions of one row. */
  lemma EffectOnPhase(d: Delivery, a: RowAction, now: Instant)
    requires InPhase(d) && Guarded(d, a, now)
    ensures var d' := Effect(d, a, now);
      && InPhase(d')
      && (d.WentAsync() ==> d'.WentAsync())
      && (d'.status.Processing? <==> a.Pick? || (d.status.Processing? && !a.Send?))
  {
  }

  lemma StepKeepsPhase(s: State, e: Event)
    requires Inv(s) && Enabled(s, e)
    ensures forall id | id in Apply(s, e).rows :: InPhase(Apply(s, e).rows[id])
    ensures InAsync(s.rows) <= InAsync(Apply(s, e).rows)
  {
    forall id | id in Apply(s, e).rows
      ensures InPhase(Apply(s, e).rows[id])
    {
      RowStep(s, e, id);
      if id in s.rows {
        StepIsGuarded(s, e, id);
        EffectOnPhase(s.rows[id], ActionOn(e, id), e.at);
      }
    }
    forall id | id in InAsync(s.rows)
      ensures id in InAsync(Apply(s, e).rows)
    {
      RowStep(s, e, id);
      StepIsGuarded(s, e, id);
      EffectOnPhase(s.rows[id], ActionOn(e, id), e.at);
    }
  }

  lemma InSendAt(s: State, e: Event, id: Id)
    requires Inv(s) && Enabled(s, e)
    ensures id in InSend(Apply(s, e).rows)
            <==> id in s.rows && (ActionOn(e, id).Pick? || (s.rows[id].status.Processing? && !ActionOn(e, id).Send?))
  {
    RowStep(s, e, id);
    if id in s.rows {
      StepIsGuarded(s, e, id);
      EffectOnPhase(s.rows[id], ActionOn(e, id), e.at);
    }
  }

  lemma ClaimOnInSendAt(s: State, e: Event, id: Id)
    requires Inv(s) && Enabled(s, e) && e.act.Claim? && e.act.lane.SendLane?
    ensures id in InSend(Apply(s, e).rows) <==> id in InSend(s.rows) || id in e.act.ids
    ensures id in e.act.ids ==> id !in InSend(s.rows)
  {
    InSendAt(s, e, id);
    if id in e.act.ids {
      ClaimedAt(s, e, id);
      assert ActionOn(e, id).Pick? && s.rows[id].status.Ready?;
    } else {
      assert ActionOn(e, id).Skip?;
    }
  }

  lemma GrowsBy(before: set<Id>, after: set<Id>, ids: seq<Id>)
    requires forall id :: id in after <==> id in before || id in ids
    requires forall id | id in ids :: id !in before
    ensures Elements(ids) !! before && after == before + Elements(ids)
  {
    forall id
      ensures id in after <==> id in before + Elements(ids)
      ensures id !in before * Elements(ids)
    {
      assert id in Elements(ids) <==> id in ids;
    }
  }

  lemma ClaimOnInSend(s: State, e: Event)
    requires Inv(s) && Enabled(s, e) && e.act.Claim? && e.act.lane.SendLane?
    ensures Elements(e.act.ids) !! InSend(s.rows)
    ensures InSend(Apply(s, e).rows) == InSend(s.rows) + Elements(e.act.ids)
  {
    forall id
      ensures id in InSend(Apply(s, e).rows) <==> id in InSend(s.rows) || id in e.act.ids
      ensures id in e.act.ids ==> id !in InSend(s.rows)
    {
      ClaimOnInSendAt(s, e, id);
    }
    GrowsBy(InSend(s.rows), InSend(Apply(s, e).rows), e.act.ids);
  }

  lemma FinishOnInSend(s: State, e: Event)
    requires Inv(s) && Enabled(s, e) && e.act.FinishSend?
    ensures InSend(Apply(s, e).rows) == InSend(s.rows) - {e.act.id}
  {
    forall id
      ensures id in InSend(Apply(s, e).rows) <==> id in InSend(s.rows) - {e.act.id}
    {
      InSendAt(s, e, id);
    }
  }

  lemma OthersOnInSend(s: State, e: Event)
    requires Inv(s) && Enabled(s, e) && !e.act.FinishSend? && !(e.act.Claim? && e.act.lane.SendLane?)
    ensures InSend(Apply(s, e).rows) == InSend(s.rows)
  {
    forall id
      ensures id in InSend(Apply(s, e).rows) <==> id in InSend(s.rows)
    {
      InSendAt(s, e, id);
    }
  }

  lemma StepKeepsSends(s: State, e: Event)
    requires Inv(s) && Enabled(s, e)
    ensures Partition(Apply(s, e).sends, InSend(Apply(s, e).rows))
  {
    var owned, tr := InSend(s.rows), TransitOf(e.act, SendLane);
    EnabledFits(s, e, SendLane);
    match tr
    case Gain(dst, ids) =>
      ClaimOnInSend(s, e);
      PushKeepsPartition(s.sends, dst, ids, owned);
    case Yield(src) =>
      FinishOnInSend(s, e);
      PopKeepsPartition(s.sends, src, e.act.id, owned);
    case Carry(src, dst) =>
      OthersOnInSend(s, e);
      MoveKeepsPartition(s.sends, src, dst, owned);
    case Stay =>
      OthersOnInSend(s, e);
  }

  lemma StepKeepsPolls(s: State, e: Event)
    requires Inv(s) && Enabled(s, e)
    ensures Within(Apply(s, e).polls, InAsync(s.rows))
  {
    var allowed, tr := InAsync(s.rows), TransitOf(e.act, PollLane);
    EnabledFits(s, e, PollLane);
    if tr.Gain? {
      forall id | id in tr.ids
        ensures id in allowed
      {
        ClaimedAt(s, e, id);
      }
    }
    TransitKeepsWithin(s.polls, tr, allowed);
  }

  /** A transit fills no channel or worker beyond its capacity. */
  predicate FitsTarget(h: Hands, tr: Transit, procs: map<nat, Config>) {
    match tr
    case Carry(_, dst) =>
      && !dst.Cursor?
      && (dst.Channel? ==> dst.proc in procs && |At(h, dst)| < 2 * procs[dst.proc].batch)
      && (dst.Worker? ==> At(h, dst) == [])
    case Gain(dst, _) => dst.Cursor? && dst.proc in procs
    case _ => true
  }

  lemma TransitKeepsCapacity(h: Hands, tr: Transit, procs: map<nat, Config>)
    requires FitsCapacity(h, procs) && Fits(h, tr) && FitsTarget(h, tr, procs)
    ensures FitsCapacity(Transited(h, tr), procs)
  {
    forall pl: Place
      ensures |At(Transited(h, tr), pl)| <= |At(h, pl)| || (!tr.Stay? && !tr.Yield? && pl == tr.dst)
      ensures tr.Carry? ==> |At(Transited(h, tr), pl)| <= |At(h, pl)| + 1
    {
      TransitedAt(h, tr, pl);
    }
  }

  lemma StepKeepsBounds(s: State, e: Event, lane: Lane)
    requires FitsCapacity(HandsOf(s, lane), s.procs) && Enabled(s, e)
    ensures FitsCapacity(HandsAfter(s, e, lane), s.procs)
  {
    EnabledFits(s, e, lane);
    TransitKeepsCapacity(HandsOf(s, lane), TransitOf(e.act, lane), s.procs);
  }

  /** Every step keeps the invariant. */
  lemma StepKeepsInv(s: State, e: Event)
    requires Inv(s) && Enabled(s, e)
    ensures Inv(Apply(s, e))
  {
    StepKeepsPhase(s, e);
    StepKeepsSends(s, e);
    StepKeepsPolls(s, e);
    StepKeepsBounds(s, e, SendLane);
    StepKeepsBounds(s, e, PollLane);
  }

  /** Every reachable state satisfies the invariant. */
  lemma {:induction false} ReachableInv(s0: State, es: seq<Event>)
    requires Reach(s0, es)
    ensures Inv(End(s0, es))
    decreases |es|
  {
    if es == [] {
    } else {
      ReachableInv(s0, Init(es));
      StepKeepsInv(End(s0, Init(es)), Last(es));
    }
  }

  // ---------------------------------------------------------------- what it gives

  /** The id sits at exactly one position of exactly one place. */
  ghost predicate HeldOnce(h: Hands, id: Id) {
    exists pl, i ::
      && 0 <= i < |At(h, pl)| && At(h, pl)[i] == id
      && forall ql, j | 0 <= j < |At(h, ql)| && At(h, ql)[j] == id :: ql == pl && j == i
  }

  ghost predicate Held(h: Hands, id: Id) {
    exists pl :: id in At(h, pl)
  }

  lemma PartitionHoldsOnce(h: Hands, owned: set<Id>, id: Id)
    requires Partition(h, owned)
    ensures id in owned ==> HeldOnce(h, id)
    ensures Held(h, id) ==> id in owned
  {
    if id in owned {
      var pl :| id in At(h, pl);
      var i :| 0 <= i < |At(h, pl)| && At(h, pl)[i] == id;
      forall ql, j | 0 <= j < |At(h, ql)| && At(h, ql)[j] == id
        ensures ql == pl && j == i
      {
        assert id in At(h, ql);
      }
    }
  }

  /**
   Exclusive hold: in every reachable state, whatever the number of claimers and workers, a
   delivery that is processing is held exactly once and any other is not held at all.
   */
  lemma ExclusiveHold(s0: State, es: seq<Event>, id: Id)
    requires Reach(s0, es)
    ensures var s := End(s0, es);
      if id in s.rows && s.rows[id].status.Processing? then HeldOnce(s.sends, id) else !Held(s.sends, id)
  {
    ReachableInv(s0, es);
    PartitionHoldsOnce(End(s0, es).sends, InSend(End(s0, es).rows), id);
  }

  /** Two workers, of one process or of two, never have the same delivery in hand. */
  lemma NoTwoSenders(s0: State, es: seq<Event>, p: nat, v: nat, q: nat, w: nat, id: Id)
    requires Reach(s0, es)
    requires id in At(End(s0, es).sends, Worker(p, v)) && id in At(End(s0, es).sends, Worker(q, w))
    ensures p == q && v == w
  {
    ReachableInv(s0, es);
  }

  lemma StateAtInv(s0: State, es: seq<Event>, k: nat)
    requires Reach(s0, es) && k <= |es|
    ensures Inv(StateAt(s0, es, k))
  {
    PrefixIsRun(s0, es, k);
    ReachableInv(s0, es[..k]);
  }

  lemma LostStaysLost(s: State, e: Event, id: Id)
    requires Enabled(s, e) && id in At(s.sends, Lost)
    ensures id in At(Apply(s, e).sends, Lost)
  {
    EnabledFits(s, e, SendLane);
    TransitedElements(s.sends, TransitOf(e.act, SendLane), Lost, id);
  }

  lemma LostIsProcessing(s: State, id: Id)
    requires Inv(s) && id in At(s.sends, Lost)
    ensures id in s.rows && s.rows[id].status.Processing?
  {
    assert id in InSend(s.rows);
  }

  lemma {:induction false} LostForTheRest(s0: State, es: seq<Event>, i: nat, j: nat, id: Id)
    requires IsRun(s0, es) && i <= j <= |es|
    requires id in At(StateAt(s0, es, i).sends, Lost)
    ensures id in At(StateAt(s0, es, j).sends, Lost)
    decreases j
  {
    if i == j {
    } else {
      LostForTheRest(s0, es, i, j - 1, id);
      StateAtNext(s0, es, j - 1);
      LostStaysLost(StateAt(s0, es, j - 1), es[j - 1], id);
    }
  }

  /** A delivery whose row was dropped stays processing for the rest of the run. */
  lemma DroppedStaysProcessing(s0: State, es: seq<Event>, i: nat, j: nat, id: Id)
    requires Reach(s0, es) && i <= j <= |es|
    requires id in At(StateAt(s0, es, i).sends, Lost)
    ensures var s := StateAt(s0, es, j);
      id in At(s.sends, Lost) && id in s.rows && s.rows[id].status.Processing?
  {
    LostForTheRest(s0, es, i, j, id);
    StateAtInv(s0, es, j);
    LostIsProcessing(StateAt(s0, es, j), id);
  }

  /** The event drops the row that holds the delivery: from a cursor, a stopped process's channel, or a worker. */
  predicate Drops(s: State, a: Action, id: Id) {
    match a
    case Drop(SendLane, p) => |At(s.sends, Cursor(p))| > 0 && At(s.sends, Cursor(p))[0] == id
    case Strand(SendLane, p) => |At(s.sends, Channel(p))| > 0 && At(s.sends, Channel(p))[0] == id
    case Abandon(SendLane, p, w) => |At(s.sends, Worker(p, w))| > 0 && At(s.sends, Worker(p, w))[0] == id
    case _ => false
  }

  /** Each of these events loses the row for good: the delivery is processing at every later time. */
  lemma DroppingLoses(s0: State, es: seq<Event>, k: nat, j: nat, id: Id)
    requires Reach(s0, es) && k < j <= |es| && Drops(StateAt(s0, es, k), es[k].act, id)
    ensures id in StateAt(s0, es, j).rows && StateAt(s0, es, j).rows[id].status.Processing?
  {
    var s, e := StateAt(s0, es, k), es[k];
    StateAtNext(s0, es, k);
    EnabledFits(s, e, SendLane);
    TransitedAt(s.sends, TransitOf(e.act, SendLane), Lost);
    DroppedStaysProcessing(s0, es, k + 1, j, id);
  }

  // ---------------------------------------------------------------- one delivery in a run

  /** The k-th event of a run meets a guarded row and has its effect on it. */
  lemma RowAtStep(s0: State, es: seq<Event>, k: nat, id: Id)
    requires Reach(s0, es) && k < |es| && id in StateAt(s0, es, k).rows
    ensures id in StateAt(s0, es, k + 1).rows
    ensures StateAt(s0, es, k + 1).rows[id] == Effect(StateAt(s0, es, k).rows[id], ActionOn(es[k], id), es[k].at)
    ensures InPhase(StateAt(s0, es, k).rows[id]) && Guarded(StateAt(s0, es, k).rows[id], ActionOn(es[k], id), es[k].at)
    ensures StateAt(s0, es, k).clock <= es[k].at == StateAt(s0, es, k + 1).clock
  {
    StateAtInv(s0, es, k);
    StateAtNext(s0, es, k);
    RowStep(StateAt(s0, es, k), es[k], id);
    StepIsGuarded(StateAt(s0, es, k), es[k], id);
  }

  lemma StrangerIsSkipped(s: State, e: Event, id: Id)
    requires Inv(s) && Enabled(s, e) && id !in s.rows
    ensures ActionOn(e, id).Skip?
  {
    match e.act
    case Claim(_, _, _, ids) => if id in ids { ClaimedAt(s, e, id); }
    case FinishSend(p, w, i, _, _, _) =>
      assert i in At(s.sends, Worker(p, w));
      assert i in InSend(s.rows);
    case FinishPoll(p, w, i, _, _) =>
      assert i in At(s.polls, Worker(p, w));
      assert i in InAsync(s.rows);
    case _ =>
  }

  /** The same for an event that may follow a run. */
  lemma RowAtNext(s0: State, es: seq<Event>, e: Event, id: Id)
    requires Reach(s0, es) && Enabled(End(s0, es), e)
    ensures id in End(s0, es).rows ==>
      && id in Apply(End(s0, es), e).rows
      && Apply(End(s0, es), e).rows[id] == Effect(End(s0, es).rows[id], ActionOn(e, id), e.at)
      && InPhase(End(s0, es).rows[id]) && Guarded(End(s0, es).rows[id], ActionOn(e, id), e.at)
    ensures id !in End(s0, es).rows ==>
      && ActionOn(e, id).Skip?
      && (id in Apply(End(s0, es), e).rows ==> IsFresh(Apply(End(s0, es), e).rows[id]))
  {
    ReachableInv(s0, es);
    RowStep(End(s0, es), e, id);
    if id in End(s0, es).rows {
      StepIsGuarded(End(s0, es), e, id);
    } else {
      StrangerIsSkipped(End(s0, es), e, id);
    }
  }
}
