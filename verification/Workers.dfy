/**
 The loops of one process: claimAndDispatch over the rows of a query, and one turn of a send
 or poll worker. Other goroutines appear through what they do in between.
 */
module Workers {
  import opened Basics
  import opened Responses
  import opened Deliveries
  import opened DeliveryStores
  import opened Limiters

  // ---------------------------------------------------------------- dispatch

  /** A buffered channel of delivery ids. */
  class Channel {
    const capacity: nat
    var items: seq<Id>

    constructor (capacity: nat)
      ensures this.capacity == capacity && items == []
    {
      this.capacity := capacity;
      items := [];
    }

    /** Workers take up to n items from the front. */
    method Receive(n: nat) returns (taken: seq<Id>)
      modifies this`items
      ensures taken + items == old(items)
      ensures |taken| == Min(n, |old(items)|)
    {
      var k := Min(n, |items|);
      taken, items := items[..k], items[k..];
    }

    /** The claimer adds one item; a send goes through once there is room. */
    method Send(id: Id)
      requires |items| < capacity
      modifies this`items
      ensures items == old(items) + [id]
    {
      items := items + [id];
    }
  }

  /**
   What happens around one row: how many items workers receive first, whether Scan works, and
   whether the select goes for the ended context rather than for the send.
   */
  datatype Moment = Moment(received: nat, scans: bool, cancelled: bool)

  /** The elements of s whose mark is m, in order. */
  function Marked<T>(s: seq<T>, marks: seq<bool>, m: bool): seq<T>
    requires |marks| == |s|
  {
    if s == [] then []
    else
      var n := |s| - 1;
      Marked(s[..n], marks[..n], m) + if marks[n] == m then [s[n]] else []
  }

  lemma {:induction false} MarksPartition<T>(s: seq<T>, marks: seq<bool>)
    requires |marks| == |s|
    ensures multiset(Marked(s, marks, true)) + multiset(Marked(s, marks, false)) == multiset(s)
  {
    if s == [] {
    } else {
      var n := |s| - 1;
      MarksPartition(s[..n], marks[..n]);
      assert s == s[..n] + [s[n]];
      assert multiset(s) == multiset(s[..n]) + multiset([s[n]]);
    }
  }

  lemma MarkedExtend<T>(s: seq<T>, marks: seq<bool>, m: bool, i: nat, mark: bool)
    requires i < |s| && |marks| == i
    ensures Marked(s[..i + 1], marks + [mark], m) == Marked(s[..i], marks, m) + if mark == m then [s[i]] else []
  {
    assert s[..i + 1][..i] == s[..i] && (marks + [mark])[..i] == marks;
  }

  /** The marked rows are those that scan before stop, where the select first goes for the ended context. */
  ghost predicate IsDispatch(moments: seq<Moment>, marks: seq<bool>, stop: nat) {
    && |marks| == |moments| && stop <= |moments|
    && (forall k | 0 <= k < |marks| :: marks[k] <==> k < stop && moments[k].scans)
    && (forall k | 0 <= k < stop && moments[k].scans :: !moments[k].cancelled)
    && (stop < |moments| ==> moments[stop].scans && moments[stop].cancelled)
  }

  /**
   The body of the loop for one row. A send on a full channel blocks until a worker receives;
   the select then sends or ends with the context.
   */
  method OfferRow(row: Id, m: Moment, ch: Channel) returns (taken: seq<Id>, sent: bool)
    requires 0 < ch.capacity && |ch.items| <= ch.capacity
    modifies ch`items
    ensures sent <==> m.scans && !m.cancelled
    ensures taken + ch.items == old(ch.items) + if sent then [row] else []
    ensures |ch.items| <= ch.capacity
    ensures |taken| == Min(m.received, |old(ch.items)|)
                       + if sent && m.received == 0 && |old(ch.items)| == ch.capacity then 1 else 0
  {
    taken := ch.Receive(m.received);
    sent := m.scans && !m.cancelled;
    if sent {
      if |ch.items| == ch.capacity {
        var more := ch.Receive(1);
        taken := taken + more;
      }
      ch.Send(row);
    }
  }

  /** Rows behind the point where the loop stopped are lost. */
  ghost method FillFalse(rows: seq<Id>, marks: seq<bool>) returns (all: seq<bool>)
    requires |marks| <= |rows|
    ensures |all| == |rows|
    ensures forall k | 0 <= k < |rows| :: all[k] <==> k < |marks| && marks[k]
    ensures Marked(rows, all, true) == Marked(rows[..|marks|], marks, true)
  {
    all := marks;
    assert rows[..|rows|] == rows;
    while |all| < |rows|
      invariant |marks| <= |all| <= |rows|
      invariant forall k | 0 <= k < |all| :: all[k] <==> k < |marks| && marks[k]
      invariant Marked(rows[..|all|], all, true) == Marked(rows[..|marks|], marks, true)
    {
      MarkedExtend(rows, all, true, |all|, false);
      all := all + [false];
    }
  }

  /** What a worker takes from the front and the claimer adds at the back keep the order. */
  lemma KeepsOrder(received: seq<Id>, taken: seq<Id>, before: seq<Id>, items: seq<Id>, source: seq<Id>, more: seq<Id>)
    requires received + before == source && taken + items == before + more
    ensures (received + taken) + items == source + more
  {
    assert (received + taken) + items == received + (taken + items);
    assert received + (before + more) == (received + before) + more;
  }

  /** With the workers, in the channel or lost: each row once in all. */
  lemma NothingDisappears(received: seq<Id>, items: seq<Id>, before: seq<Id>, rows: seq<Id>, marks: seq<bool>)
    requires |marks| == |rows| && received + items == before + Marked(rows, marks, true)
    ensures multiset(received) + multiset(items) + multiset(Marked(rows, marks, false))
            == multiset(before) + multiset(rows)
  {
    MarksPartition(rows, marks);
    assert multiset(received + items) == multiset(before + Marked(rows, marks, true));
  }

  /** The loop over claimed rows, up to the one at which the select goes for the ended context. */
  method OfferRows(rows: seq<Id>, moments: seq<Moment>, ch: Channel)
    returns (received: seq<Id>, stop: nat, ghost marks: seq<bool>)
    requires |moments| == |rows| && 0 < ch.capacity && |ch.items| <= ch.capacity
    modifies ch`items
    ensures |marks| == stop <= |rows|
    ensures forall k | 0 <= k < stop :: (marks[k] <==> moments[k].scans) && (marks[k] ==> !moments[k].cancelled)
    ensures stop < |rows| ==> moments[stop].scans && moments[stop].cancelled
    ensures received + ch.items == old(ch.items) + Marked(rows[..stop], marks, true)
    ensures |ch.items| <= ch.capacity
  {
    received, stop, marks := [], 0, [];
    while stop < |rows|
      invariant |marks| == stop <= |rows|
      invariant forall k | 0 <= k < stop :: (marks[k] <==> moments[k].scans) && (marks[k] ==> !moments[k].cancelled)
      invariant received + ch.items == old(ch.items) + Marked(rows[..stop], marks, true)
      invariant |ch.items| <= ch.capacity
    {
      ghost var before := ch.items;
      var taken, sent := OfferRow(rows[stop], moments[stop], ch);
      KeepsOrder(received, taken, before, ch.items, old(ch.items) + Marked(rows[..stop], marks, true),
                 if sent then [rows[stop]] else []);
      received := received + taken;
      if moments[stop].scans && !sent {
        return;
      }
      MarkedExtend(rows, marks, true, stop, sent);
      marks := marks + [sent];
      stop := stop + 1;
    }
  }

  /**
   The whole of one lane's dispatch: a row that fails to scan is skipped, the others are sent in
   order until the select goes for the ended context. Afterwards each row is with a worker, in
   the channel, which never exceeds its capacity, or lost, once in all.
   */
  method DispatchRows(rows: seq<Id>, moments: seq<Moment>, ch: Channel)
    returns (received: seq<Id>, stop: nat, ghost lost: seq<Id>, ghost marks: seq<bool>)
    requires |moments| == |rows| && 2 * |rows| <= ch.capacity && |ch.items| <= ch.capacity
    modifies ch`items
    ensures IsDispatch(moments, marks, stop)
    ensures received + ch.items == old(ch.items) + Marked(rows, marks, true)
    ensures lost == Marked(rows, marks, false)
    ensures multiset(received) + multiset(ch.items) + multiset(lost) == multiset(old(ch.items)) + multiset(rows)
    ensures |ch.items| <= ch.capacity
  {
    if rows == [] {
      return [], 0, [], [];
    }
    received, stop, marks := OfferRows(rows, moments, ch);
    marks := FillFalse(rows, marks);
    lost := Marked(rows, marks, false);
    NothingDisappears(received, ch.items, old(ch.items), rows, marks);
  }

  // ---------------------------------------------------------------- worker turns

  /** The limiter settings a claimed row carries. */
  datatype Limits = Limits(rateKey: Key, rps: Option<real>, burst: Option<int>, maxConc: Option<int>)

  /** How the waits and the database call of one turn go; cancelled is the choice of the select in wait. */
  datatype Turn = Turn(globalOk: bool, limiterOk: bool, cancelled: bool, dbOk: bool)

  /**
   One turn of a send worker. The row is written as its response demands when the limiter let
   it through and the database took the call, and stays as claimed otherwise; every semaphore
   has afterwards the slots in use it had before.
   */
  method SendTurn(ls: LimiterSet, store: DeliveryStore, id: Id, limits: Limits, turn: Turn,
                  useAsync: bool, resp: SendResponse, pollAgain: int, now: Instant)
    returns (handled: bool)
    requires ls.Valid()
    requires turn.globalOk && turn.limiterOk && !turn.cancelled
             && limits.maxConc.Some? && limits.maxConc.value > 0 && limits.rateKey in ls.conc ==>
      ls.conc[limits.rateKey].used < ls.conc[limits.rateKey].capacity
    modifies ls, ls.conc.Values, store`rows
    ensures ls.Valid()
    ensures handled <==>
      turn.globalOk && turn.limiterOk && turn.dbOk
      && (limits.maxConc.Some? && limits.maxConc.value > 0 ==> !turn.cancelled)
    // the first row of a rate key that passes the global limiter fixes the key's rate and burst
    ensures !turn.globalOk || limits.rateKey in old(ls.per) ==> ls.per == old(ls.per)
    ensures turn.globalOk && limits.rateKey !in old(ls.per) ==>
      var r := if limits.rps.Some? && limits.rps.value > 0.0 then limits.rps.value else 1.0;
      var b := if limits.burst.Some? && limits.burst.value > 0 then limits.burst.value else r.Floor;
      ls.per == old(ls.per)[limits.rateKey := RateLimiter(r, b)]
    ensures ls.Slots() == if turn.globalOk then LookedUp(old(ls.Slots()), limits.rateKey, limits.maxConc)
                          else old(ls.Slots())
    ensures store.rows == if handled then
                            Write(old(store.rows), id, d => AfterSend(d, Decide(useAsync, resp), pollAgain, now))
                          else old(store.rows)
  {
    ghost var looked := LookedUp(ls.Slots(), limits.rateKey, limits.maxConc);
    var release, ok := ls.Wait(limits.rateKey, RpsOf(limits.rps), BurstOf(limits.rps, limits.burst), limits.maxConc,
                               turn.globalOk, turn.limiterOk, turn.cancelled);
    if !ok {
      return false;
    }
    ghost var taken := ls.Slots();
    handled := turn.dbOk;
    if turn.dbOk {
      store.HandleSend(id, useAsync, resp, pollAgain, now);
    }
    assert ls.Slots() == taken && (release != null ==> taken[limits.rateKey].1 > 0);
    ls.Release(limits.rateKey, release);
    if release != null {
      TakenBack(looked, ls.Slots(), limits.rateKey);
    }
  }

  /** One turn of a poll worker. */
  method PollTurn(ls: LimiterSet, store: DeliveryStore, id: Id, limits: Limits, turn: Turn,
                  resp: PollResponse, pollAgain: int, now: Instant)
    returns (handled: bool)
    requires ls.Valid()
    requires turn.globalOk && turn.limiterOk && !turn.cancelled
             && limits.maxConc.Some? && limits.maxConc.value > 0 && limits.rateKey in ls.conc ==>
      ls.conc[limits.rateKey].used < ls.conc[limits.rateKey].capacity
    modifies ls, ls.conc.Values, store`rows
    ensures ls.Valid()
    ensures handled <==>
      turn.globalOk && turn.limiterOk && turn.dbOk
      && (limits.maxConc.Some? && limits.maxConc.value > 0 ==> !turn.cancelled)
    // the first row of a rate key that passes the global limiter fixes the key's rate and burst
    ensures !turn.globalOk || limits.rateKey in old(ls.per) ==> ls.per == old(ls.per)
    ensures turn.globalOk && limits.rateKey !in old(ls.per) ==>
      var r := if limits.rps.Some? && limits.rps.value > 0.0 then limits.rps.value else 1.0;
      var b := if limits.burst.Some? && limits.burst.value > 0 then limits.burst.value else r.Floor;
      ls.per == old(ls.per)[limits.rateKey := RateLimiter(r, b)]
    ensures ls.Slots() == if turn.globalOk then LookedUp(old(ls.Slots()), limits.rateKey, limits.maxConc)
                          else old(ls.Slots())
    ensures store.rows == if handled then Write(old(store.rows), id, d => AfterPoll(d, resp, pollAgain, now))
                          else old(store.rows)
  {
    ghost var looked := LookedUp(ls.Slots(), limits.rateKey, limits.maxConc);
    var release, ok := ls.Wait(limits.rateKey, RpsOf(limits.rps), BurstOf(limits.rps, limits.burst), limits.maxConc,
                               turn.globalOk, turn.limiterOk, turn.cancelled);
    if !ok {
      return false;
    }
    ghost var taken := ls.Slots();
    handled := turn.dbOk;
    if turn.dbOk {
      store.HandlePoll(id, resp, pollAgain, now);
    }
    assert ls.Slots() == taken && (release != null ==> taken[limits.rateKey].1 > 0);
    ls.Release(limits.rateKey, release);
    if release != null {
      TakenBack(looked, ls.Slots(), limits.rateKey);
    }
  }
}
