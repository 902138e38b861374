/** The request_rollup view over reachable tables. */
module Rollups {
  import opened Basics
  import opened Responses
  import opened Deliveries
  import opened WorkQueue
  import opened QueueSafety
  import opened QueueHistory

  datatype Label = FailedLabel | ProcessingLabel | DoneLabel | UnknownLabel
  datatype Rollup = Rollup(total: nat, done: nat, failed: nat, pending: nat, status: Label)

  function OfRequest(rows: Table, r: int): set<Id> {
    set id | id in rows && rows[id].requestId == r
  }

  function Dones(rows: Table, r: int): set<Id> {
    set id | id in OfRequest(rows, r) && rows[id].status.Done?
  }

  function Faileds(rows: Table, r: int): set<Id> {
    set id | id in OfRequest(rows, r) && rows[id].status.Failed?
  }

  function Pendings(rows: Table, r: int): set<Id> {
    set id | id in OfRequest(rows, r)
             && (rows[id].status.Ready? || rows[id].status.Processing? || rows[id].status.AwaitingAsync?)
  }

  function NotDones(rows: Table, r: int): set<Id> {
    set id | id in OfRequest(rows, r) && !rows[id].status.Done?
  }

  function RollupOf(rows: Table, r: int): Rollup {
    var done, failed, pending := |Dones(rows, r)|, |Faileds(rows, r)|, |Pendings(rows, r)|;
    Rollup(|OfRequest(rows, r)|, done, failed, pending,
           if failed > 0 then FailedLabel
           else if pending > 0 then ProcessingLabel
           else if done > 0 && |NotDones(rows, r)| == 0 then DoneLabel
           else UnknownLabel)
  }

  lemma Members(rows: Table, r: int, id: Id)
    requires id in OfRequest(rows, r)
    ensures rows[id].status.Done? ==> |Dones(rows, r)| > 0
    ensures rows[id].status.Failed? ==> |Faileds(rows, r)| > 0
    ensures !rows[id].Terminal() ==> |Pendings(rows, r)| > 0
  {
    assert rows[id].status.Done? ==> id in Dones(rows, r);
    assert rows[id].status.Failed? ==> id in Faileds(rows, r);
    assert !rows[id].Terminal() ==> id in Pendings(rows, r);
  }

  lemma NotDoneSplits(rows: Table, r: int)
    ensures Pendings(rows, r) == NotDones(rows, r) - Faileds(rows, r)
  {
    forall id
      ensures id in Pendings(rows, r) <==> id in NotDones(rows, r) - Faileds(rows, r)
    {
      if id in rows {
        match rows[id].status
        case Done =>
        case Failed =>
        case _ =>
      }
    }
  }

  lemma CountsAddUp(rows: Table, r: int)
    ensures |OfRequest(rows, r)| == |Dones(rows, r)| + |Faileds(rows, r)| + |Pendings(rows, r)|
    ensures |NotDones(rows, r)| == |Faileds(rows, r)| + |Pendings(rows, r)|
  {
    var d, f, p := Dones(rows, r), Faileds(rows, r), Pendings(rows, r);
    NotDoneSplits(rows, r);
    assert NotDones(rows, r) == f + p;
    assert OfRequest(rows, r) == d + NotDones(rows, r);
    DisjointSize(f, p);
    DisjointSize(d, NotDones(rows, r));
  }

  /** Each count is the number of the request's deliveries in the statuses it is named after; they add up. */
  lemma RollupCounts(rows: Table, r: int)
    ensures var u := RollupOf(rows, r);
      && u.total == |set id | id in rows && rows[id].requestId == r|
      && u.done == |set id | id in rows && rows[id].requestId == r && rows[id].status == Done|
      && u.failed == |set id | id in rows && rows[id].requestId == r && rows[id].status == Failed|
      && u.pending
         == |set id | id in rows && rows[id].requestId == r && rows[id].status in {Ready, Processing, AwaitingAsync}|
      && u.total == u.done + u.failed + u.pending
  {
    CountsAddUp(rows, r);
    assert OfRequest(rows, r) == set id | id in rows && rows[id].requestId == r;
    assert Dones(rows, r) == set id | id in rows && rows[id].requestId == r && rows[id].status == Done;
    assert Faileds(rows, r) == set id | id in rows && rows[id].requestId == r && rows[id].status == Failed;
    assert Pendings(rows, r)
        == set id | id in rows && rows[id].requestId == r && rows[id].status in {Ready, Processing, AwaitingAsync};
  }

  /** The label says of the request's deliveries what its name promises. */
  lemma RollupMeaning(rows: Table, r: int)
    ensures var shown := RollupOf(rows, r).status;
      && (shown.UnknownLabel? <==> forall id | id in rows :: rows[id].requestId != r)
      && (shown.FailedLabel? <==> exists id :: id in rows && rows[id].requestId == r && rows[id].status == Failed)
      && (shown.ProcessingLabel? <==>
            && (forall id | id in rows && rows[id].requestId == r :: rows[id].status != Failed)
            && (exists id :: id in rows && rows[id].requestId == r && rows[id].status !in {Done, Failed}))
      && (shown.DoneLabel? <==>
            && (exists id :: id in rows && rows[id].requestId == r)
            && (forall id | id in rows && rows[id].requestId == r :: rows[id].status == Done))
  {
    var d, f, p := Dones(rows, r), Faileds(rows, r), Pendings(rows, r);
    CountsAddUp(rows, r);
    forall id | id in rows && rows[id].requestId == r
      ensures rows[id].status.Done? ==> |d| > 0
      ensures rows[id].status.Failed? ==> |f| > 0
      ensures !rows[id].Terminal() ==> |p| > 0
    {
      Members(rows, r, id);
    }
    if |f| > 0 {
      var id := Element(f);
      assert id in rows && rows[id].requestId == r && rows[id].status == Failed;
    } else if |p| > 0 {
      var id := Element(p);
      assert id in rows && rows[id].requestId == r && rows[id].status !in {Done, Failed};
    } else if |d| > 0 {
      var id := Element(d);
      assert id in rows && rows[id].requestId == r;
    }
  }

  /** Neither a new delivery, nor a send that ends one, nor a terminal poll. */
  ghost predicate Quiet(s: State, e: Event) {
    match e.act
    case Insert(_) => false
    case FinishSend(_, _, id, _, _, _) =>
      id in s.rows ==>
        IsStart(ActionOn(e, id))
        || (IsFailure(ActionOn(e, id)) && s.rows[id].attempts + 1 < s.rows[id].maxAttempts.GetOr(8))
    case FinishPoll(_, _, _, resp, _) => Classify(resp).Unfinished?
    case _ => true
  }

  /** The two rows count the same way: same request, same end or both pending. */
  predicate SameShare(d: Delivery, d': Delivery) {
    && d'.requestId == d.requestId
    && (d'.status.Done? <==> d.status.Done?)
    && (d'.status.Failed? <==> d.status.Failed?)
  }

  lemma QuietEffect(s: State, e: Event, id: Id)
    requires Inv(s) && Enabled(s, e) && Quiet(s, e) && id in s.rows
    ensures var d, d' := s.rows[id], Effect(s.rows[id], ActionOn(e, id), e.at);
      (d'.Terminal() ==> d.Terminal()) && (d.Terminal() ==> d'.status == d.status)
  {
    StepIsGuarded(s, e, id);
    var a := ActionOn(e, id);
    if a.Send? {
      SendsSort(a);
    } else if a.Poll? {
      PollVerdict(s.rows[id], a.polled, a.pollAgain, e.at);
    }
  }

  lemma SameSharesSameRollup(a: Table, b: Table, r: int)
    requires forall id :: id in a <==> id in b
    requires forall id | id in a :: SameShare(a[id], b[id])
    ensures RollupOf(a, r) == RollupOf(b, r)
  {
    forall id
      ensures id in OfRequest(a, r) <==> id in OfRequest(b, r)
      ensures id in Dones(a, r) <==> id in Dones(b, r)
      ensures id in Faileds(a, r) <==> id in Faileds(b, r)
      ensures id in NotDones(a, r) <==> id in NotDones(b, r)
    {
      assert id in a ==> SameShare(a[id], b[id]);
    }
    assert OfRequest(a, r) == OfRequest(b, r) && Dones(a, r) == Dones(b, r);
    assert Faileds(a, r) == Faileds(b, r) && NotDones(a, r) == NotDones(b, r);
    assert Pendings(a, r) == NotDones(a, r) - Faileds(a, r) by { NotDoneSplits(a, r); }
    assert Pendings(b, r) == NotDones(b, r) - Faileds(b, r) by { NotDoneSplits(b, r); }
  }

  /** Claims, reschedules, started jobs and unfinished polls leave every roll-up as it was. */
  lemma QuietStepsKeepRollups(s0: State, es: seq<Event>, e: Event, r: int)
    requires Reach(s0, es) && Enabled(End(s0, es), e) && Quiet(End(s0, es), e)
    ensures RollupOf(Apply(End(s0, es), e).rows, r) == RollupOf(End(s0, es).rows, r)
  {
    var s := End(s0, es);
    var t := Apply(s, e);
    ReachableInv(s0, es);
    forall id
      ensures id in s.rows <==> id in t.rows
      ensures id in s.rows ==> SameShare(s.rows[id], t.rows[id])
    {
      RowAtNext(s0, es, e, id);
      if id in s.rows {
        EffectFollows(s.rows[id], ActionOn(e, id), e.at);
        QuietEffect(s, e, id);
      }
    }
    SameSharesSameRollup(s.rows, t.rows, r);
  }

  /** Where ends are kept, the labels done and failed are kept. */
  lemma KeptEndsKeepLabels(a: Table, b: Table, r: int)
    requires forall id | id in a && a[id].requestId == r && a[id].Terminal() ::
      id in b && b[id].requestId == r && b[id].status == a[id].status
    ensures RollupOf(a, r).status.FailedLabel? ==> RollupOf(b, r).status.FailedLabel?
    ensures RollupOf(a, r).status.DoneLabel? && OfRequest(a, r) == OfRequest(b, r) ==> RollupOf(b, r).status.DoneLabel?
  {
    RollupMeaning(a, r);
    RollupMeaning(b, r);
    if RollupOf(a, r).status.FailedLabel? {
      var id :| id in a && a[id].requestId == r && a[id].status == Failed;
      assert id in b;
    }
    if OfRequest(a, r) == OfRequest(b, r) {
      forall id
        ensures id in a && a[id].requestId == r <==> id in b && b[id].requestId == r
      {
        assert id in OfRequest(a, r) <==> id in OfRequest(b, r);
      }
    }
  }

  /**
   The labels done and failed are sticky: once shown they stay for the rest of the run, given
   that each remote job answers consistently and, for done, that the request gets no new delivery.
   */
  lemma LabelsAreSticky(s0: State, es: seq<Event>, i: nat, j: nat, r: int)
    requires Reach(s0, es) && i <= j <= |es|
    requires forall id | id in OfRequest(StateAt(s0, es, j).rows, r) :: Agree(Verdicts(es, id))
    ensures var u, v := RollupOf(StateAt(s0, es, i).rows, r), RollupOf(StateAt(s0, es, j).rows, r);
      && (u.status.FailedLabel? ==> v.status.FailedLabel?)
      && (u.status.DoneLabel? && OfRequest(StateAt(s0, es, i).rows, r) == OfRequest(StateAt(s0, es, j).rows, r)
          ==> v.status.DoneLabel?)
  {
    var a, b := StateAt(s0, es, i).rows, StateAt(s0, es, j).rows;
    forall id | id in a && a[id].requestId == r && a[id].Terminal()
      ensures id in b && b[id].requestId == r && b[id].status == a[id].status
    {
      TerminalAbsorbs(s0, es, i, j, id);
      assert id in OfRequest(b, r);
      AgreeingNeverSwaps(s0, es, i, j, id);
    }
    KeptEndsKeepLabels(a, b, r);
  }
}
