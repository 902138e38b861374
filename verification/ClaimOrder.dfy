/**
 ORDER BY ... FOR UPDATE SKIP LOCKED LIMIT n, the selection inside both claim functions.
 */
module ClaimOrder {
  import opened Basics
  import opened Responses
  import opened Deliveries

  /** Sends go by (priority DESC, next_run_at, id), polls by (next_run_at, id). */
  datatype Order = SendOrder | PollOrder

  predicate Before(order: Order, rows: Table, a: Id, b: Id)
    requires a in rows && b in rows
  {
    var x, y := rows[a], rows[b];
    if order.SendOrder? && x.priority != y.priority then x.priority > y.priority
    else if x.nextRunAt != y.nextRunAt then x.nextRunAt < y.nextRunAt
    else a < b
  }

  /** The WHERE clause of claim_deliveries; servers and requests map each existing id to its suspended flag. */
  function Sendable(rows: Table, servers: map<int, bool>, requests: map<int, bool>, now: Instant): set<Id> {
    set id | id in rows
          && rows[id].status.Ready? && rows[id].nextRunAt <= now
          && rows[id].serverId in servers && !servers[rows[id].serverId]
          && rows[id].requestId in requests && !requests[rows[id].requestId]
  }

  /** The WHERE clause of claim_async_polls: a suspended request does not stop its polls. */
  function Pollable(rows: Table, servers: map<int, bool>, now: Instant): set<Id> {
    set id | id in rows
          && rows[id].status.AwaitingAsync? && rows[id].nextRunAt <= now
          && rows[id].serverId in servers && !servers[rows[id].serverId]
  }

  /** picked holds the limit candidates that come first, or all when there are fewer. */
  ghost predicate IsTop(order: Order, rows: Table, candidates: set<Id>, limit: nat, picked: set<Id>)
    requires candidates <= rows.Keys
  {
    && picked <= candidates
    && |picked| == Min(limit, |candidates|)
    && forall a, b | a in picked && b in candidates - picked :: Before(order, rows, a, b)
  }

  lemma BeforeIsTransitive(order: Order, rows: Table, a: Id, b: Id, c: Id)
    requires a in rows && b in rows && c in rows
    requires a == b || Before(order, rows, a, b)
    requires b == c || Before(order, rows, b, c)
    ensures a == c || Before(order, rows, a, c)
  {
  }

  lemma {:induction false} FirstExists(order: Order, rows: Table, candidates: set<Id>)
    requires candidates <= rows.Keys && candidates != {}
    ensures exists a :: a in candidates && forall b | b in candidates && b != a :: Before(order, rows, a, b)
    decreases candidates
  {
    var x := Element(candidates);
    if candidates == {x} {
      assert forall b | b in candidates && b != x :: Before(order, rows, x, b);
    } else {
      FirstExists(order, rows, candidates - {x});
      var a :| a in candidates - {x} && forall b | b in candidates - {x} && b != a :: Before(order, rows, a, b);
      if Before(order, rows, a, x) {
        assert forall b | b in candidates && b != a :: Before(order, rows, a, b);
      } else {
        forall b | b in candidates && b != x
          ensures Before(order, rows, x, b)
        {
          BeforeIsTransitive(order, rows, x, a, b);
        }
      }
    }
  }

  function First(order: Order, rows: Table, candidates: set<Id>): (a: Id)
    requires candidates <= rows.Keys && candidates != {}
    ensures a in candidates && forall b | b in candidates && b != a :: Before(order, rows, a, b)
  {
    FirstExists(order, rows, candidates);
    var a :| a in candidates && forall b | b in candidates && b != a :: Before(order, rows, a, b);
    a
  }

  function Pick(order: Order, rows: Table, candidates: set<Id>, limit: nat): (picked: set<Id>)
    requires candidates <= rows.Keys
    ensures IsTop(order, rows, candidates, limit, picked)
    decreases limit
  {
    if limit == 0 || candidates == {} then {}
    else
      var a := First(order, rows, candidates);
      var rest := Pick(order, rows, candidates - {a}, limit - 1);
      assert candidates - (rest + {a}) == (candidates - {a}) - rest;
      rest + {a}
  }

  /** Whoever is left behind finds the limit reached, and comes after every picked row. */
  lemma LeftBehind(order: Order, rows: Table, candidates: set<Id>, limit: nat, picked: set<Id>)
    requires candidates <= rows.Keys && IsTop(order, rows, candidates, limit, picked)
    ensures |picked| <= limit
    ensures forall b | b in candidates && b !in picked ::
      |picked| == limit && forall a | a in picked :: Before(order, rows, a, b)
  {
    SubsetSize(picked, candidates);
    forall b | b in candidates && b !in picked
      ensures forall a | a in picked :: Before(order, rows, a, b)
    {
      assert b in candidates - picked;
    }
  }

  lemma TopComesFirst(order: Order, rows: Table, candidates: set<Id>, limit: nat, picked: set<Id>, a: Id, b: Id)
    requires candidates <= rows.Keys && IsTop(order, rows, candidates, limit, picked)
    requires a in picked && b in candidates && b !in picked
    ensures Before(order, rows, a, b)
  {
    assert b in candidates - picked;
  }

  /** The selection is determined: no other set has the property. */
  lemma TopIsUnique(order: Order, rows: Table, candidates: set<Id>, limit: nat, p: set<Id>, q: set<Id>)
    requires candidates <= rows.Keys
    requires IsTop(order, rows, candidates, limit, p) && IsTop(order, rows, candidates, limit, q)
    ensures p == q
  {
    if p <= q {
      SubsetSize(p, q);
    } else if q <= p {
      SubsetSize(q, p);
    } else {
      var a := Element(p - q);
      var b := Element(q - p);
      TopComesFirst(order, rows, candidates, limit, p, a, b);
      TopComesFirst(order, rows, candidates, limit, q, b, a);
      assert false;
    }
  }

  /** Two claims one after the other, the second without the rows of the first, pick what one claim would. */
  lemma SuccessiveClaims(order: Order, rows: Table, candidates: set<Id>, m: nat, n: nat)
    requires candidates <= rows.Keys
    ensures Pick(order, rows, candidates, m) + Pick(order, rows, candidates - Pick(order, rows, candidates, m), n)
            == Pick(order, rows, candidates, m + n)
  {
    var p := Pick(order, rows, candidates, m);
    var q := Pick(order, rows, candidates - p, n);
    DisjointSize(p, q);
    DisjointSize(p, candidates - p);
    assert p + (candidates - p) == candidates;
    assert (candidates - p) - q == candidates - (p + q);
    TopIsUnique(order, rows, candidates, m + n, p + q, Pick(order, rows, candidates, m + n));
  }

  // ---------------------------------------------------------------- overlapping claimers

  /**
   FOR UPDATE names no table, so a claim locks every row it joins: the delivery, its server
   and, for sends, its request. The rows a and b then exclude each other while one is held.
   */
  predicate Clash(order: Order, rows: Table, a: Id, b: Id)
    requires a in rows && b in rows
  {
    a == b || rows[a].serverId == rows[b].serverId || (order.SendOrder? && rows[a].requestId == rows[b].requestId)
  }

  /** The candidates an overlapping claimer skips while the first one holds its picks. */
  function Blocked(order: Order, rows: Table, candidates: set<Id>, held: set<Id>): set<Id>
    requires candidates <= rows.Keys && held <= rows.Keys
  {
    set id | id in candidates && exists h | h in held :: Clash(order, rows, id, h)
  }

  lemma TopAmongFewer(order: Order, rows: Table, candidates: set<Id>, fewer: set<Id>, limit: nat, picked: set<Id>)
    requires picked <= fewer <= candidates <= rows.Keys
    requires IsTop(order, rows, candidates, limit, picked)
    ensures IsTop(order, rows, fewer, limit, picked)
  {
    SubsetSize(picked, fewer);
    SubsetSize(fewer, candidates);
  }

  lemma PicksAreBlocked(order: Order, rows: Table, candidates: set<Id>, held: set<Id>)
    requires held <= candidates <= rows.Keys
    ensures held <= Blocked(order, rows, candidates, held)
  {
    forall a | a in held
      ensures a in Blocked(order, rows, candidates, held)
    {
      assert Clash(order, rows, a, a);
    }
  }

  /** Rows that the next claim would not pick anyway can be kept from it. */
  lemma BlockedInVain(order: Order, rows: Table, candidates: set<Id>, blocked: set<Id>, n: nat)
    requires candidates <= rows.Keys && Pick(order, rows, candidates, n) !! blocked
    ensures Pick(order, rows, candidates - blocked, n) == Pick(order, rows, candidates, n)
  {
    var next := Pick(order, rows, candidates, n);
    TopAmongFewer(order, rows, candidates, candidates - blocked, n, next);
    TopIsUnique(order, rows, candidates - blocked, n, Pick(order, rows, candidates - blocked, n), next);
  }

  lemma SplitsAlike(p: set<Id>, next: set<Id>, q: set<Id>, blocked: set<Id>)
    requires p <= blocked && p !! next && q !! blocked
    requires next !! blocked ==> q == next
    ensures p !! q && (p + q == p + next <==> (p + next) * blocked == p)
  {
    assert (p + next) * blocked == p + next * blocked;
    if p + q == p + next {
      assert next <= q;
    }
    if p + next * blocked == p {
      assert next * blocked <= p;
    }
  }

  lemma OverlapSplits(order: Order, rows: Table, candidates: set<Id>, p: set<Id>, n: nat)
    requires p <= candidates <= rows.Keys
    ensures var blocked, next := Blocked(order, rows, candidates, p), Pick(order, rows, candidates - p, n);
      var q := Pick(order, rows, candidates - blocked, n);
      p !! q && (p + q == p + next <==> (p + next) * blocked == p)
  {
    var blocked, next := Blocked(order, rows, candidates, p), Pick(order, rows, candidates - p, n);
    PicksAreBlocked(order, rows, candidates, p);
    assert (candidates - p) - blocked == candidates - blocked;
    if next !! blocked {
      BlockedInVain(order, rows, candidates - p, blocked, n);
    }
    SplitsAlike(p, next, Pick(order, rows, candidates - blocked, n), blocked);
  }

  /**
   A claimer that overlaps the first one gets other rows. The two together hold what one claim
   of the summed limits would have picked exactly when, among the rows that claim would pick,
   none beyond the first claimer's clashes with one of them.
   */
  lemma ConcurrentClaimers(order: Order, rows: Table, candidates: set<Id>, m: nat, n: nat)
    requires candidates <= rows.Keys
    ensures var p, both := Pick(order, rows, candidates, m), Pick(order, rows, candidates, m + n);
      var blocked := Blocked(order, rows, candidates, p);
      var q := Pick(order, rows, candidates - blocked, n);
      p !! q && (p + q == both <==> both * blocked == p)
  {
    OverlapSplits(order, rows, candidates, Pick(order, rows, candidates, m), n);
    SuccessiveClaims(order, rows, candidates, m, n);
  }

  lemma NothingElseIsBlocked(order: Order, rows: Table, candidates: set<Id>, held: set<Id>)
    requires held <= candidates <= rows.Keys
    requires forall a, b | a in held && b in candidates && b !in held ::
      rows[a].serverId != rows[b].serverId && (order.SendOrder? ==> rows[a].requestId != rows[b].requestId)
    ensures Blocked(order, rows, candidates, held) == held
  {
    PicksAreBlocked(order, rows, candidates, held);
  }

  /**
   Claimers do not get in each other's way when what the first one holds shares no server, and
   for sends no request, with any other candidate.
   */
  lemma ApartClaimersShare(order: Order, rows: Table, candidates: set<Id>, m: nat, n: nat, p: set<Id>)
    requires candidates <= rows.Keys && p == Pick(order, rows, candidates, m)
    requires forall a, b | a in p && b in candidates && b !in p ::
      rows[a].serverId != rows[b].serverId && (order.SendOrder? ==> rows[a].requestId != rows[b].requestId)
    ensures p + Pick(order, rows, candidates - Blocked(order, rows, candidates, p), n)
            == Pick(order, rows, candidates, m + n)
  {
    NothingElseIsBlocked(order, rows, candidates, p);
    SuccessiveClaims(order, rows, candidates, m, n);
  }

  /** While a claimer holds a delivery of a server, or of a request, an overlapping one gets no other of it. */
  lemma OneServerAtATime(order: Order, rows: Table, candidates: set<Id>, m: nat, n: nat)
    requires candidates <= rows.Keys && candidates != {} && m > 0
    requires (forall a, b | a in candidates && b in candidates :: rows[a].serverId == rows[b].serverId)
             || (order.SendOrder?
                 && forall a, b | a in candidates && b in candidates :: rows[a].requestId == rows[b].requestId)
    ensures Pick(order, rows, candidates - Blocked(order, rows, candidates, Pick(order, rows, candidates, m)), n) == {}
  {
    var h := Element(Pick(order, rows, candidates, m));
    assert forall a | a in candidates :: Clash(order, rows, a, h);
  }

  /** Two due deliveries of one server and two claimers with room for one each: the second gets nothing. */
  lemma SecondClaimerStarves(rows: Table, order: Order)
    requires rows.Keys == {1, 2} && rows[1].serverId == rows[2].serverId
    ensures var p := Pick(order, rows, {1, 2}, 1);
      var q := Pick(order, rows, {1, 2} - Blocked(order, rows, {1, 2}, p), 1);
      q == {} && Pick(order, rows, {1, 2}, 2) == {1, 2} && p + q != {1, 2}
  {
    OneServerAtATime(order, rows, {1, 2}, 1, 1);
    assert |{1, 2}| == 2;
    var both := Pick(order, rows, {1, 2}, 2);
    SubsetSize(both, {1, 2});
  }
}
