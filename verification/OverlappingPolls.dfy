/**
 Why done and failed can swap: only overlapping polls of one job make it possible, whatever
 the remote server answers.
 */
module OverlappingPolls {
  import opened Basics
  import opened Responses
  import opened Deliveries
  import opened WorkQueue
  import opened QueueSafety
  import opened QueueHistory

  /** A poll of the delivery sits at position i of a place it can still be worked off from. */
  predicate InFlight(h: Hands, id: Id, pl: Place, i: int) {
    pl != Lost && 0 <= i < |At(h, pl)| && At(h, pl)[i] == id
  }

  ghost predicate AtMostOneInFlight(h: Hands, id: Id) {
    forall a, i, b, j | InFlight(h, id, a, i) && InFlight(h, id, b, j) :: a == b && i == j
  }

  ghost predicate NoneInFlight(h: Hands, id: Id) {
    forall pl | pl != Lost :: id !in At(h, pl)
  }

  /** At no time of the run are two polls of the delivery in flight. */
  ghost predicate NeverOverlaps(s0: State, es: seq<Event>, id: Id)
    requires IsRun(s0, es)
  {
    forall k: nat | k <= |es| :: AtMostOneInFlight(StateAt(s0, es, k).polls, id)
  }

  lemma OnlyPollIsDone(h: Hands, pl: Place, id: Id)
    requires AtMostOneInFlight(h, id) && pl != Lost && At(h, pl) == [id]
    ensures NoneInFlight(Pop(h, pl), id)
  {
    assert InFlight(h, id, pl, 0);
    forall a | a != Lost && id in At(Pop(h, pl), a)
      ensures false
    {
      assert a != pl && At(Pop(h, pl), a) == At(h, a);
      var i :| 0 <= i < |At(h, a)| && At(h, a)[i] == id;
      assert InFlight(h, id, a, i);
    }
  }

  /** Once a delivery has ended and no poll of it is under way, none ever will be. */
  lemma NoneStaysNone(s: State, e: Event, id: Id)
    requires Enabled(s, e) && NoneInFlight(s.polls, id)
    requires id in s.rows && s.rows[id].Terminal()
    ensures !ActionOn(e, id).Poll?
    ensures NoneInFlight(Apply(s, e).polls, id)
  {
    var tr := TransitOf(e.act, PollLane);
    EnabledFits(s, e, PollLane);
    if tr.Gain? && id in tr.ids {
      ClaimedAt(s, e, id);
    }
    forall pl | pl != Lost
      ensures id !in At(Apply(s, e).polls, pl)
    {
      TransitedElements(s.polls, tr, pl, id);
    }
  }

  lemma PrefixNeverOverlaps(s0: State, es: seq<Event>, id: Id)
    requires IsRun(s0, es) && es != [] && NeverOverlaps(s0, es, id)
    ensures NeverOverlaps(s0, Init(es), id)
  {
    forall k: nat | k <= |Init(es)|
      ensures AtMostOneInFlight(StateAt(s0, Init(es), k).polls, id)
    {
      assert Init(es)[..k] == es[..k];
      assert StateAt(s0, Init(es), k) == StateAt(s0, es, k);
    }
  }

  lemma {:induction false} JudgedOnce(s0: State, es: seq<Event>, id: Id)
    requires Reach(s0, es) && NeverOverlaps(s0, es, id)
    ensures |Verdicts(es, id)| <= 1
    ensures Verdicts(es, id) != [] ==> NoneInFlight(End(s0, es).polls, id)
    decreases |es|
  {
    if es == [] {
    } else {
      var s, e := End(s0, Init(es)), Last(es);
      PrefixNeverOverlaps(s0, es, id);
      JudgedOnce(s0, Init(es), id);
      if Verdicts(Init(es), id) != [] {
        Accounts(s0, Init(es), id);
        VerdictsAreTerminal(Init(es), id);
        NoneStaysNone(s, e, id);
      } else if ActionOn(e, id).Poll? {
        assert es[..|Init(es)|] == Init(es);
        assert StateAt(s0, es, |Init(es)|) == s;
        OnlyPollIsDone(s.polls, Worker(e.act.proc, e.act.worker), id);
      }
    }
  }

  /**
   Without overlapping polls a delivery gets at most one verdict in any run, so done and failed
   never swap, whatever its remote job answers.
   */
  lemma NoOverlapNoSwap(s0: State, es: seq<Event>, id: Id)
    requires Reach(s0, es) && NeverOverlaps(s0, es, id)
    ensures |Verdicts(es, id)| <= 1 && NeverSwaps(s0, es, id)
  {
    JudgedOnce(s0, es, id);
    NeverSwapsIff(s0, es, id);
  }
}
