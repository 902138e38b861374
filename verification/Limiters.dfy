/**
 LimiterSet: per-key rate limiters and per-key semaphores. A rate.Limiter is held as its two
 settings; whether its Wait succeeds is decided by the caller's environment.
 */
module Limiters {
  import opened Basics

  /** A rate key: keys are only compared, so integers stand for the strings. */
  type Key = int

  datatype RateLimiter = RateLimiter(rps: real, burst: int)

  function DerefFloat(p: Option<real>, default: real): real {
    if p.None? || p.value <= 0.0 then default else p.value
  }

  function DerefInt32(p: Option<int>, default: int): int {
    if p.None? || p.value <= 0 then default else p.value
  }

  function RpsOf(rps: Option<real>): real {
    DerefFloat(rps, 1.0)
  }

  function BurstOf(rps: Option<real>, burst: Option<int>): int {
    DerefInt32(burst, RpsOf(rps).Floor)
  }

  /** The rate and the burst a row's limiter is made with: what the row says where that is positive. */
  lemma LimiterSettings(rps: Option<real>, burst: Option<int>)
    ensures RpsOf(rps) == if rps.Some? && rps.value > 0.0 then rps.value else 1.0
    ensures BurstOf(rps, burst) == if burst.Some? && burst.value > 0 then burst.value else RpsOf(rps).Floor
  {
  }

  /** The rate is positive; the burst is zero, so that no wait can succeed, in exactly one case. */
  lemma BurstIsZeroIff(rps: Option<real>, burst: Option<int>)
    ensures RpsOf(rps) > 0.0 && BurstOf(rps, burst) >= 0
    ensures BurstOf(rps, burst) == 0
            <==> (burst.None? || burst.value <= 0) && rps.Some? && 0.0 < rps.value < 1.0
  {
  }

  /** make(chan struct{}, capacity), used as a semaphore. */
  class Semaphore {
    const capacity: nat
    var used: nat

    constructor (capacity: nat)
      ensures this.capacity == capacity && used == 0
    {
      this.capacity := capacity;
      used := 0;
    }
  }

  /** Capacity and slots in use of each key that has a semaphore. */
  type View = map<Key, (nat, nat)>

  /** The semaphore of a key is asked for. */
  predicate Bounded(maxConc: Option<int>) {
    maxConc.Some? && maxConc.value > 0
  }

  /** The first caller with a positive maxConc fixes the capacity of a key. */
  function LookedUp(v: View, key: Key, maxConc: Option<int>): View {
    if Bounded(maxConc) && key !in v then v[key := (maxConc.value, 0)] else v
  }

  /** One more slot of the key is in use. */
  function Taken(v: View, key: Key): View
    requires key in v
  {
    v[key := (v[key].0, v[key].1 + 1)]
  }

  /** Giving back what was taken restores the view. */
  lemma TakenBack(v: View, w: View, key: Key)
    requires key in v && key in w && Taken(v, key) == Taken(w, key)
    ensures v == w
  {
    assert v.Keys == Taken(v, key).Keys == w.Keys;
    forall k | k in v
      ensures v[k] == w[k]
    {
      assert Taken(v, key)[k] == Taken(w, key)[k];
    }
  }

  class LimiterSet {
    var per: map<Key, RateLimiter>
    var conc: map<Key, Semaphore>

    ghost predicate Valid()
      reads this, conc.Values
    {
      && (forall k | k in conc :: 0 < conc[k].capacity && conc[k].used <= conc[k].capacity)
      && (forall j, k | j in conc && k in conc && j != k :: conc[j] != conc[k])
    }

    ghost function Slots(): View
      reads this, conc.Values
    {
      map k | k in conc :: (conc[k].capacity, conc[k].used)
    }

    constructor ()
      ensures Valid() && per == map[] && conc == map[]
    {
      per, conc := map[], map[];
    }

    /**
     The part of wait that runs under the mutex: the first caller of a key fixes its limiter,
     the first with a positive maxConc its capacity, and no entry is replaced.
     */
    method Lookup(key: Key, rps: real, burst: int, maxConc: Option<int>) returns (sem: Semaphore?)
      requires Valid()
      modifies this
      ensures Valid()
      ensures per == if key in old(per) then old(per) else old(per)[key := RateLimiter(rps, burst)]
      ensures forall k | k in old(conc) :: k in conc && conc[k] == old(conc[k])
      ensures forall k | k in conc && k !in old(conc) :: fresh(conc[k])
      ensures Slots() == LookedUp(old(Slots()), key, maxConc)
      ensures sem != null <==> maxConc.Some? && maxConc.value > 0
      ensures sem != null ==> key in conc && sem == conc[key]
      ensures conc.Keys == old(conc).Keys + if sem != null then {key} else {}
      ensures sem != null && key !in old(conc) ==> sem.capacity == maxConc.value && sem.used == 0
    {
      if key !in per {
        per := per[key := RateLimiter(rps, burst)];
      }
      sem := null;
      if maxConc.Some? && maxConc.value > 0 {
        if key !in conc {
          var made := new Semaphore(maxConc.value);
          conc := conc[key := made];
        }
        sem := conc[key];
      }
    }

    /**
     The select in wait. It blocks while the semaphore is full and the context lives, and may go
     either way when both are ready: cancelled is its choice, and a slot is free if it is to take one.
     */
    method Acquire(ghost key: Key, sem: Semaphore, cancelled: bool)
      requires Valid() && key in conc && sem == conc[key]
      requires !cancelled ==> sem.used < sem.capacity
      modifies sem
      ensures Valid()
      ensures Slots() == if cancelled then old(Slots()) else Taken(old(Slots()), key)
      ensures sem.used == old(sem.used) + if cancelled then 0 else 1
    {
      ghost var before := Slots();
      if !cancelled {
        sem.used := sem.used + 1;
        assert forall k | k in conc :: Slots()[k] == Taken(before, key)[k];
      }
    }

    /** What wait does behind the mutex: the key's limiter, then the semaphore, if it was asked for. */
    method Admit(ghost key: Key, sem: Semaphore?, limiterOk: bool, cancelled: bool)
      returns (release: Semaphore?, ok: bool)
      requires Valid() && (sem != null ==> key in conc && sem == conc[key])
      requires sem != null && limiterOk && !cancelled ==> sem.used < sem.capacity
      modifies sem
      ensures Valid()
      ensures ok <==> limiterOk && (sem != null ==> !cancelled)
      ensures release == if ok then sem else null
      ensures Slots() == if release == null then old(Slots()) else Taken(old(Slots()), key)
      ensures release != null ==> release.used == old(sem.used) + 1
    {
      if !limiterOk {
        return null, false;
      }
      if sem == null {
        return null, true;
      }
      Acquire(key, sem, cancelled);
      return if cancelled then null else sem, !cancelled;
    }

    /** wait: a slot is taken exactly when the call succeeds for a bounded row. */
    method Wait(key: Key, rps: real, burst: int, maxConc: Option<int>,
                globalOk: bool, limiterOk: bool, cancelled: bool)
      returns (release: Semaphore?, ok: bool)
      requires Valid()
      requires globalOk && limiterOk && !cancelled && maxConc.Some? && maxConc.value > 0 && key in conc ==>
        conc[key].used < conc[key].capacity
      modifies this, conc.Values
      ensures Valid()
      ensures per == if !globalOk || key in old(per) then old(per) else old(per)[key := RateLimiter(rps, burst)]
      ensures forall k | k in old(conc) :: k in conc && conc[k] == old(conc[k])
      ensures forall k | k in conc && k !in old(conc) :: fresh(conc[k])
      ensures var looked := LookedUp(old(Slots()), key, maxConc);
        && (ok <==> globalOk && limiterOk && (maxConc.Some? && maxConc.value > 0 ==> !cancelled))
        && Slots() == (if !globalOk then old(Slots()) else if ok && Bounded(maxConc) then Taken(looked, key) else looked)
      ensures if ok && Bounded(maxConc) then key in conc && release == conc[key] else release == null
      ensures release != null ==> release.used == (if key in old(conc) then old(conc[key].used) else 0) + 1
      ensures release != null && key !in old(conc) ==> release.capacity == maxConc.value
    {
      if !globalOk {
        return null, false;
      }
      var sem := Lookup(key, rps, burst, maxConc);
      assert sem != null ==> Slots()[key] == (sem.capacity, sem.used);
      release, ok := Admit(key, sem, limiterOk, cancelled);
    }

    /** The release function: it gives the slot back, or does nothing. */
    method Release(ghost key: Key, sem: Semaphore?)
      requires Valid() && (sem != null ==> key in conc && sem == conc[key] && sem.used > 0)
      modifies sem
      ensures Valid()
      ensures sem == null ==> Slots() == old(Slots())
      ensures sem != null ==> key in Slots() && old(Slots()) == Taken(Slots(), key)
      ensures sem != null ==> sem.used == old(sem.used) - 1
    {
      ghost var before := Slots();
      if sem != null {
        sem.used := sem.used - 1;
        assert forall k | k in conc :: before[k] == Taken(Slots(), key)[k];
      }
    }
  }
}

/**
 The same semaphores under interleaving: many workers are inside wait at once, each between
 the locked lookup and the acquisition, or holding what it was given.
 */
module SlotProtocol {
  import opened Basics
  import opened Limiters

  datatype Phase =
    | Idle
    | Waiting(key: Key, bounded: bool)
    | Working(key: Key, bounded: bool)

  datatype Slots = Slots(capacity: map<Key, nat>, used: map<Key, nat>, phase: map<nat, Phase>)

  datatype SlotAction =
    | Lookup(worker: nat, key: Key, maxConc: Option<int>)
    | Fail(worker: nat)
    | Acquire(worker: nat)
    | GiveBack(worker: nat)

  function PhaseOf(s: Slots, w: nat): Phase {
    if w in s.phase then s.phase[w] else Idle
  }

  function Used(s: Slots, key: Key): nat {
    if key in s.used then s.used[key] else 0
  }

  ghost predicate Can(s: Slots, a: SlotAction) {
    match a
    case Lookup(w, _, _) => PhaseOf(s, w).Idle?
    case Fail(w) => PhaseOf(s, w).Waiting?   // limiter error or cancelled context
    case Acquire(w) =>
      && PhaseOf(s, w).Waiting?
      && (PhaseOf(s, w).bounded ==>
            PhaseOf(s, w).key in s.capacity && Used(s, PhaseOf(s, w).key) < s.capacity[PhaseOf(s, w).key])
    case GiveBack(w) =>
      // a receive from an empty channel would block
      PhaseOf(s, w).Working? && (PhaseOf(s, w).bounded ==> Used(s, PhaseOf(s, w).key) > 0)
  }

  ghost function Do(s: Slots, a: SlotAction): Slots
    requires Can(s, a)
  {
    match a
    case Lookup(w, key, maxConc) =>
      var bounded := Bounded(maxConc);
      s.(capacity := if bounded && key !in s.capacity then s.capacity[key := maxConc.value] else s.capacity,
         phase := s.phase[w := Waiting(key, bounded)])
    case Fail(w) => s.(phase := s.phase[w := Idle])
    case Acquire(w) =>
      var p := PhaseOf(s, w);
      s.(used := if p.bounded then s.used[p.key := Used(s, p.key) + 1] else s.used,
         phase := s.phase[w := Working(p.key, p.bounded)])
    case GiveBack(w) =>
      var p := PhaseOf(s, w);
      s.(used := if p.bounded then s.used[p.key := Used(s, p.key) - 1] else s.used,
         phase := s.phase[w := Idle])
  }

  /** The workers that hold a slot of the key. */
  function Holders(s: Slots, key: Key): set<nat> {
    set w | w in s.phase && s.phase[w] == Working(key, true)
  }

  ghost predicate SlotInv(s: Slots) {
    && (forall key :: Used(s, key) == |Holders(s, key)|)
    && (forall key | key in s.capacity :: 0 < s.capacity[key] && Used(s, key) <= s.capacity[key])
    && (forall w | w in s.phase && !s.phase[w].Idle? && s.phase[w].bounded :: s.phase[w].key in s.capacity)
  }

  /** Where runs begin: no semaphore yet and nobody inside wait. */
  lemma RunsBegin()
    ensures SlotInv(Slots(map[], map[], map[]))
  {
    forall key
      ensures Used(Slots(map[], map[], map[]), key) == |Holders(Slots(map[], map[], map[]), key)|
    {
      assert Holders(Slots(map[], map[], map[]), key) == {};
    }
  }

  /** A worker enters or leaves the holders of a key with its phase. */
  lemma PhaseChange(s: Slots, w: nat, p: Phase, key: Key)
    ensures var t := s.(phase := s.phase[w := p]);
      |Holders(t, key)| == |Holders(s, key)| + (if p == Working(key, true) then 1 else 0)
                                             - (if PhaseOf(s, w) == Working(key, true) then 1 else 0)
  {
    var t := s.(phase := s.phase[w := p]);
    var others := Holders(s, key) - {w};
    assert Holders(s, key) == if PhaseOf(s, w) == Working(key, true) then others + {w} else others;
    assert Holders(t, key) == if p == Working(key, true) then others + {w} else others;
  }

  /** How one action changes the holders of one key. */
  lemma HoldersAfter(s: Slots, a: SlotAction, key: Key)
    requires SlotInv(s) && Can(s, a)
    ensures Used(Do(s, a), key) == |Holders(Do(s, a), key)|
  {
    var w, p := a.worker, PhaseOf(s, a.worker);
    match a
    case Lookup(_, k, maxConc) => PhaseChange(s, w, Waiting(k, Bounded(maxConc)), key);
    case Fail(_) => PhaseChange(s, w, Idle, key);
    case Acquire(_) => PhaseChange(s, w, Working(p.key, p.bounded), key);
    case GiveBack(_) => PhaseChange(s, w, Idle, key);
    assert Holders(Do(s, a), key) == Holders(s.(phase := Do(s, a).phase), key);
  }

  lemma NoHolderBeforeCapacity(s: Slots, key: Key)
    requires SlotInv(s) && key !in s.capacity
    ensures Used(s, key) == 0
  {
    if |Holders(s, key)| > 0 {
      var w := Element(Holders(s, key));
    }
  }

  lemma WithinCapacityAfter(s: Slots, a: SlotAction, key: Key)
    requires SlotInv(s) && Can(s, a) && key in Do(s, a).capacity
    ensures 0 < Do(s, a).capacity[key] && Used(Do(s, a), key) <= Do(s, a).capacity[key]
  {
    if key !in s.capacity {
      NoHolderBeforeCapacity(s, key);
    }
  }

  lemma SlotStep(s: Slots, a: SlotAction)
    requires SlotInv(s) && Can(s, a)
    ensures SlotInv(Do(s, a))
    ensures forall key | key in s.capacity :: key in Do(s, a).capacity && Do(s, a).capacity[key] == s.capacity[key]
  {
    forall key
      ensures Used(Do(s, a), key) == |Holders(Do(s, a), key)|
    {
      HoldersAfter(s, a, key);
    }
    forall key | key in Do(s, a).capacity
      ensures 0 < Do(s, a).capacity[key] && Used(Do(s, a), key) <= Do(s, a).capacity[key]
    {
      WithinCapacityAfter(s, a, key);
    }
  }

  ghost predicate IsSlotRun(s: Slots, actions: seq<SlotAction>)
    decreases |actions|
  {
    actions == [] || (Can(s, actions[0]) && IsSlotRun(Do(s, actions[0]), actions[1..]))
  }

  ghost function SlotEnd(s: Slots, actions: seq<SlotAction>): Slots
    requires IsSlotRun(s, actions)
    decreases |actions|
  {
    if actions == [] then s else SlotEnd(Do(s, actions[0]), actions[1..])
  }

  /**
   From any state that satisfies the invariant, the empty one for instance, any interleaving
   keeps slots in use equal to the workers holding one and within a capacity that never changes;
   in particular every release finds a slot to give back.
   */
  lemma {:induction false} SlotsAreSafe(s: Slots, actions: seq<SlotAction>, key: Key)
    requires SlotInv(s) && IsSlotRun(s, actions)
    ensures var t := SlotEnd(s, actions);
      && SlotInv(t)
      && Used(t, key) == |Holders(t, key)|
      && (key in s.capacity ==> key in t.capacity && t.capacity[key] == s.capacity[key])
      && (key in t.capacity ==> Used(t, key) <= t.capacity[key])
    decreases |actions|
  {
    if actions == [] {
    } else {
      SlotStep(s, actions[0]);
      SlotsAreSafe(Do(s, actions[0]), actions[1..], key);
    }
  }

  /** A worker can always give back what it took: its receive never finds the channel empty. */
  lemma ReleaseNeverBlocks(s: Slots, w: nat)
    requires SlotInv(s) && PhaseOf(s, w).Working?
    ensures Can(s, GiveBack(w))
  {
    if PhaseOf(s, w).bounded {
      assert w in Holders(s, PhaseOf(s, w).key);
    }
  }

  // ---------------------------------------------------------------- the class follows the protocol

  /** The view of a limiter set holds the capacities and slots of the protocol state. */
  ghost predicate Matches(v: View, s: Slots) {
    && v.Keys == s.capacity.Keys
    && forall k | k in v :: v[k] == (s.capacity[k], Used(s, k))
  }

  lemma LookupInProtocol(v: View, s: Slots, w: nat, key: Key, maxConc: Option<int>)
    requires Matches(v, s) && SlotInv(s) && PhaseOf(s, w).Idle?
    ensures Matches(LookedUp(v, key, maxConc), Do(s, Lookup(w, key, maxConc)))
  {
    if key !in s.capacity {
      NoHolderBeforeCapacity(s, key);
    }
  }

  /** The locked part of wait is the protocol's lookup. */
  method LookupFollows(ls: LimiterSet, key: Key, rps: real, burst: int, maxConc: Option<int>,
                       ghost w: nat, ghost s: Slots)
    returns (sem: Semaphore?, ghost t: Slots)
    requires ls.Valid() && Matches(ls.Slots(), s) && SlotInv(s) && PhaseOf(s, w).Idle?
    modifies ls
    ensures t == Do(s, Lookup(w, key, maxConc))
    ensures ls.Valid() && Matches(ls.Slots(), t)
    ensures if PhaseOf(t, w).bounded then key in ls.conc && sem == ls.conc[key] else sem == null
  {
    LookupInProtocol(ls.Slots(), s, w, key, maxConc);
    sem := ls.Lookup(key, rps, burst, maxConc);
    t := Do(s, Lookup(w, key, maxConc));
  }

  lemma AcquireInProtocol(v: View, s: Slots, w: nat)
    requires Matches(v, s) && SlotInv(s) && PhaseOf(s, w).Waiting?
    requires PhaseOf(s, w).bounded ==> PhaseOf(s, w).key in v && v[PhaseOf(s, w).key].1 < v[PhaseOf(s, w).key].0
    ensures Can(s, Acquire(w))
    ensures Matches(if PhaseOf(s, w).bounded then Taken(v, PhaseOf(s, w).key) else v, Do(s, Acquire(w)))
  {
  }

  /**
   The rest of wait, run when other workers have done what they like since the lookup, is the
   protocol's acquisition or failure.
   */
  method AdmitFollows(ls: LimiterSet, sem: Semaphore?, limiterOk: bool, cancelled: bool, ghost w: nat, ghost s: Slots)
    returns (release: Semaphore?, ok: bool, ghost t: Slots)
    requires ls.Valid() && Matches(ls.Slots(), s) && SlotInv(s) && PhaseOf(s, w).Waiting?
    requires if PhaseOf(s, w).bounded then PhaseOf(s, w).key in ls.conc && sem == ls.conc[PhaseOf(s, w).key]
             else sem == null
    requires sem != null && limiterOk && !cancelled ==> sem.used < sem.capacity
    modifies sem
    ensures ok <==> limiterOk && (PhaseOf(s, w).bounded ==> !cancelled)
    ensures var next := if ok then Acquire(w) else Fail(w); Can(s, next) && t == Do(s, next)
    ensures ls.Valid() && Matches(ls.Slots(), t)
    ensures release == if ok then sem else null
  {
    ghost var key := PhaseOf(s, w).key;
    ghost var before := ls.Slots();
    assert sem != null ==> before[key] == (sem.capacity, sem.used);
    release, ok := ls.Admit(key, sem, limiterOk, cancelled);
    if ok {
      AcquireInProtocol(before, s, w);
    }
    t := Do(s, if ok then Acquire(w) else Fail(w));
  }

  /** A lookup and what follows it, with nothing in between. */
  lemma WaitInProtocol(v: View, s: Slots, w: nat, key: Key, maxConc: Option<int>, ok: bool)
    requires Matches(v, s) && SlotInv(s) && PhaseOf(s, w).Idle?
    requires ok && Bounded(maxConc) && key in v ==> v[key].1 < v[key].0
    ensures var looked := Do(s, Lookup(w, key, maxConc));
      var next := if ok then Acquire(w) else Fail(w);
      var v' := LookedUp(v, key, maxConc);
      Can(looked, next) && Matches(if ok && Bounded(maxConc) then Taken(v', key) else v', Do(looked, next))
  {
    var t := Do(s, Lookup(w, key, maxConc));
    LookupInProtocol(v, s, w, key, maxConc);
    SlotStep(s, Lookup(w, key, maxConc));
    if ok {
      AcquireInProtocol(LookedUp(v, key, maxConc), t, w);
    }
  }

  /** A whole call of wait that nobody interrupts: nothing, or a lookup and an acquisition or failure. */
  method WaitFollows(ls: LimiterSet, key: Key, rps: real, burst: int, maxConc: Option<int>,
                     globalOk: bool, limiterOk: bool, cancelled: bool, ghost w: nat, ghost s: Slots)
    returns (release: Semaphore?, ok: bool, ghost t: Slots)
    requires ls.Valid() && Matches(ls.Slots(), s) && SlotInv(s) && PhaseOf(s, w).Idle?
    requires globalOk && limiterOk && !cancelled && maxConc.Some? && maxConc.value > 0 && key in ls.conc ==>
      ls.conc[key].used < ls.conc[key].capacity
    modifies ls, ls.conc.Values
    ensures ls.Valid() && Matches(ls.Slots(), t)
    ensures !globalOk ==> !ok && t == s
    ensures globalOk ==>
      var looked := Do(s, Lookup(w, key, maxConc));
      var next := if ok then Acquire(w) else Fail(w);
      Can(looked, next) && t == Do(looked, next)
    ensures if ok && Bounded(maxConc) then key in ls.conc && release == ls.conc[key] else release == null
  {
    ghost var before := ls.Slots();
    release, ok := ls.Wait(key, rps, burst, maxConc, globalOk, limiterOk, cancelled);
    if globalOk {
      WaitInProtocol(before, s, w, key, maxConc, ok);
      t := Do(Do(s, Lookup(w, key, maxConc)), if ok then Acquire(w) else Fail(w));
    } else {
      t := s;
    }
  }

  /** Calling release is the protocol's giving back. */
  method ReleaseFollows(ls: LimiterSet, release: Semaphore?, ghost w: nat, ghost s: Slots) returns (ghost t: Slots)
    requires ls.Valid() && Matches(ls.Slots(), s) && SlotInv(s) && PhaseOf(s, w).Working?
    requires if PhaseOf(s, w).bounded then PhaseOf(s, w).key in ls.conc && release == ls.conc[PhaseOf(s, w).key]
             else release == null
    modifies release
    ensures Can(s, GiveBack(w)) && t == Do(s, GiveBack(w))
    ensures ls.Valid() && Matches(ls.Slots(), t)
  {
    ReleaseNeverBlocks(s, w);
    assert forall k | k in ls.conc :: ls.Slots()[k] == (s.capacity[k], Used(s, k));
    ls.Release(PhaseOf(s, w).key, release);
    t := Do(s, GiveBack(w));
  }
}
