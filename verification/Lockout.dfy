/**
 The lockout columns of one user row, the statements that write them, and Login's use of them.
 */
module Lockout {
  import opened Basics

  /** threshold, window and lockout duration. */
  datatype Policy = Policy(threshold: int, window: int, lockout: int)

  /** failed_attempts, last_failed_at and locked_until. */
  datatype LockState = LockState(failed: int, lastFailedAt: Option<Instant>, lockedUntil: Option<Instant>)

  const CLEAR := LockState(0, None, None)

  predicate Locked(s: LockState, now: Instant) {
    s.lockedUntil.Some? && now < s.lockedUntil.value
  }

  /** RecordLoginFailureWithLockout. */
  function AfterWrong(s: LockState, p: Policy, now: Instant): LockState {
    var n := if s.lastFailedAt.None? || now - s.lastFailedAt.value > p.window then 1 else s.failed + 1;
    LockState(n, Some(now), if n >= p.threshold then Some(now + p.lockout) else s.lockedUntil)
  }

  /** RecordLoginFailure. */
  function AfterCount(s: LockState): LockState {
    s.(failed := s.failed + 1)
  }

  // ---------------------------------------------------------------- the user row

  /** What Login's checks find, in their order. */
  datatype Attempt = Attempt(withinRate: bool, found: bool, ipAllowed: bool, passwordMatches: bool, signs: bool)

  datatype Answer = TooMany | InvalidUser | IpDenied | AccountLocked | WrongPassword | SigningFailed | LoggedIn

  class UserRow {
    var failedAttempts: int
    var lastFailedAt: Option<Instant>
    var lockedUntil: Option<Instant>
    var lastLogin: Option<Instant>
    var passwordHash: string

    ghost function State(): LockState
      reads this
    {
      LockState(failedAttempts, lastFailedAt, lockedUntil)
    }

    constructor (hash: string)
      ensures State() == CLEAR && lastLogin == None && passwordHash == hash
    {
      failedAttempts, lastFailedAt, lockedUntil, lastLogin, passwordHash := 0, None, None, None, hash;
    }

    method RecordLoginSuccess(now: Instant)
      modifies this`lastLogin, this`failedAttempts
      ensures lastLogin == Some(now) && failedAttempts == 0
    {
      lastLogin, failedAttempts := Some(now), 0;
    }

    method RecordLoginFailure()
      modifies this`failedAttempts
      ensures State() == AfterCount(old(State()))
      ensures failedAttempts == old(failedAttempts) + 1
    {
      failedAttempts := failedAttempts + 1;
    }

    method RecordLoginFailureWithLockout(now: Instant, p: Policy)
      modifies this`failedAttempts, this`lastFailedAt, this`lockedUntil
      ensures State() == AfterWrong(old(State()), p, now)
      ensures old(lastFailedAt).None? || now - old(lastFailedAt).value > p.window ==> failedAttempts == 1
      ensures old(lastFailedAt).Some? && now - old(lastFailedAt).value <= p.window ==>
        failedAttempts == old(failedAttempts) + 1
      ensures lastFailedAt == Some(now)
      ensures lockedUntil == if failedAttempts >= p.threshold then Some(now + p.lockout) else old(lockedUntil)
    {
      var restarts := lastFailedAt.None? || now - lastFailedAt.value > p.window;
      failedAttempts := if restarts then 1 else failedAttempts + 1;
      lastFailedAt := Some(now);
      lockedUntil := if failedAttempts >= p.threshold then Some(now + p.lockout) else lockedUntil;
    }

    method ClearFailuresAndUnlock()
      modifies this`failedAttempts, this`lastFailedAt, this`lockedUntil
      ensures failedAttempts == 0 && lastFailedAt == None && lockedUntil == None
      ensures State() == CLEAR
    {
      failedAttempts, lastFailedAt, lockedUntil := 0, None, None;
    }

    method UnlockAccount()
      modifies this`failedAttempts, this`lastFailedAt, this`lockedUntil
      ensures failedAttempts == 0 && lastFailedAt == None && lockedUntil == None
      ensures State() == CLEAR
    {
      failedAttempts, lastFailedAt, lockedUntil := 0, None, None;
    }

    method SetPassword(hash: string)
      modifies this`failedAttempts, this`lastFailedAt, this`lockedUntil, this`passwordHash
      ensures State() == CLEAR && passwordHash == hash
      ensures failedAttempts == 0 && lastFailedAt == None && lockedUntil == None
    {
      passwordHash := hash;
      failedAttempts, lastFailedAt, lockedUntil := 0, None, None;
    }

    /** Login, up to the tokens it hands out: which check answers, and what the row is afterwards. */
    method Login(a: Attempt, now: Instant, p: Policy) returns (answer: Answer)
      modifies this`failedAttempts, this`lastFailedAt, this`lockedUntil, this`lastLogin
      ensures answer.TooMany? <==> !a.withinRate
      ensures answer.InvalidUser? <==> a.withinRate && !a.found
      ensures answer.IpDenied? <==> a.withinRate && a.found && !a.ipAllowed
      ensures var checked := a.withinRate && a.found && a.ipAllowed;
        var locked := old(lockedUntil).Some? && now < old(lockedUntil).value;
        && (answer.AccountLocked? <==> checked && locked)
        && (answer.WrongPassword? <==> checked && !locked && !a.passwordMatches)
        && (answer.SigningFailed? <==> checked && !locked && a.passwordMatches && !a.signs)
        && (answer.LoggedIn? <==> checked && !locked && a.passwordMatches && a.signs)
      ensures State() == match answer
        case WrongPassword => AfterWrong(old(State()), p, now)
        case InvalidUser => AfterCount(old(State()))
        case IpDenied => AfterCount(old(State()))
        case LoggedIn => CLEAR
        case _ => old(State())
      ensures answer.InvalidUser? || answer.IpDenied? ==> failedAttempts == old(failedAttempts) + 1
      ensures answer.LoggedIn? ==> failedAttempts == 0 && lastFailedAt == None && lockedUntil == None
      ensures answer.WrongPassword? ==> lastFailedAt == Some(now)
      ensures lastLogin == if answer.LoggedIn? then Some(now) else old(lastLogin)
    {
      if !a.withinRate {
        return TooMany;
      }
      if !a.found {
        RecordLoginFailure();
        return InvalidUser;
      }
      if !a.ipAllowed {
        RecordLoginFailure();
        return IpDenied;
      }
      if lockedUntil.Some? && now < lockedUntil.value {
        return AccountLocked;
      }
      if !a.passwordMatches {
        RecordLoginFailureWithLockout(now, p);
        return WrongPassword;
      }
      if !a.signs {
        return SigningFailed;
      }
      RecordLoginSuccess(now);
      ClearFailuresAndUnlock();
      return LoggedIn;
    }
  }
}

/** Whole histories of one account. */
module LockoutHistory {
  import opened Basics
  import opened Lockout

  /** A wrong password that was evaluated, a counted denial, or anything that clears the row. */
  datatype LoginEvent = Wrong(at: Instant) | Count(at: Instant) | Clear(at: Instant)

  function Step(s: LockState, p: Policy, e: LoginEvent): LockState {
    match e
    case Wrong(at) => AfterWrong(s, p, at)
    case Count(_) => AfterCount(s)
    case Clear(_) => CLEAR
  }

  function After(es: seq<LoginEvent>, p: Policy): LockState {
    if es == [] then CLEAR else Step(After(Init(es), p), p, Last(es))
  }

  /** Time does not go back, and a password is evaluated only while the account is not locked. */
  predicate IsHistory(es: seq<LoginEvent>, p: Policy) {
    es == [] ||
    (IsHistory(Init(es), p)
     && (|es| > 1 ==> Last(Init(es)).at <= Last(es).at)
     && (Last(es).Wrong? ==> !Locked(After(Init(es), p), Last(es).at)))
  }

  // ---------------------------------------------------------------- the bound

  /** How many wrong passwords were evaluated in the closed span [lo, hi]. */
  function WrongIn(es: seq<LoginEvent>, lo: Instant, hi: Instant): nat {
    if es == [] then 0
    else WrongIn(Init(es), lo, hi) + if Last(es).Wrong? && lo <= Last(es).at <= hi then 1 else 0
  }

  predicate NoClearIn(es: seq<LoginEvent>, lo: Instant, hi: Instant) {
    forall i | 0 <= i < |es| && lo <= es[i].at <= hi :: !es[i].Clear?
  }

  lemma {:induction false} NothingIsNegative(es: seq<LoginEvent>, p: Policy)
    ensures After(es, p).failed >= 0
  {
    if es == [] {
    } else {
      NothingIsNegative(Init(es), p);
    }
  }

  lemma {:induction false} NoneBeforeTheSpan(es: seq<LoginEvent>, p: Policy, lo: Instant, hi: Instant)
    requires IsHistory(es, p) && es != [] && Last(es).at < lo
    ensures WrongIn(es, lo, hi) == 0
  {
    if |es| <= 1 {
    } else {
      NoneBeforeTheSpan(Init(es), p, lo, hi);
    }
  }

  /** The failures a policy lets through before it locks: a threshold below one acts like one. */
  function Quota(p: Policy): int {
    Max(1, p.threshold)
  }

  /** While the span lasts the counter keeps up with it, and the lock outlasts it once N is reached. */
  lemma {:induction false} CounterKeepsUp(es: seq<LoginEvent>, p: Policy, lo: Instant, hi: Instant)
    requires p.lockout > p.window && hi - lo <= p.window
    requires IsHistory(es, p) && NoClearIn(es, lo, hi)
    ensures WrongIn(es, lo, hi) <= Quota(p)
    ensures es != [] && Last(es).at <= hi && WrongIn(es, lo, hi) > 0 ==>
      var s := After(es, p);
      && s.failed >= WrongIn(es, lo, hi)
      && s.lastFailedAt.Some? && lo <= s.lastFailedAt.value <= hi
      && (WrongIn(es, lo, hi) >= Quota(p) ==> s.lockedUntil.Some? && s.lockedUntil.value > hi)
  {
    if es == [] {
    } else {
      assert forall i | 0 <= i < |Init(es)| :: Init(es)[i] == es[i];
      CounterKeepsUp(Init(es), p, lo, hi);
      NothingIsNegative(Init(es), p);
      assert Last(es) == es[|es| - 1];
      if Last(es).at < lo {
        NoneBeforeTheSpan(es, p, lo, hi);
      }
    }
  }

  /**
   With a lockout longer than the window, no closed span up to a window long and without a
   clear sees more than max(1, threshold) wrong passwords evaluated, whatever else is counted.
   */
  lemma LockoutBound(es: seq<LoginEvent>, p: Policy, lo: Instant, hi: Instant)
    requires p.lockout > p.window && hi - lo <= p.window
    requires IsHistory(es, p) && NoClearIn(es, lo, hi)
    ensures WrongIn(es, lo, hi) <= Quota(p)
  {
    CounterKeepsUp(es, p, lo, hi);
  }

  function Burst(n: nat): seq<LoginEvent> {
    if n == 0 then [] else Burst(n - 1) + [Wrong(0)]
  }

  lemma {:induction false} BurstReachesThreshold(n: nat, p: Policy)
    requires n <= Quota(p) && p.window >= 0
    ensures IsHistory(Burst(n), p) && |Burst(n)| == n
    ensures forall i | 0 <= i < n :: Burst(n)[i] == Wrong(0)
    ensures WrongIn(Burst(n), 0, p.window) == n
    ensures After(Burst(n), p) ==
            if n == 0 then CLEAR else LockState(n, Some(0), if n == Quota(p) then Some(p.lockout) else None)
  {
    if n == 0 {
    } else {
      BurstReachesThreshold(n - 1, p);
      assert Init(Burst(n)) == Burst(n - 1);
    }
  }

  /** A history that beats the bound, for every policy whose lockout does not outlast the window. */
  lemma ShortLockoutIsBeaten(p: Policy) returns (es: seq<LoginEvent>)
    requires 0 <= p.window && p.lockout <= p.window
    ensures IsHistory(es, p) && NoClearIn(es, 0, p.window) && WrongIn(es, 0, p.window) == Quota(p) + 1
  {
    var burst, again := Burst(Quota(p)), Wrong(Max(p.lockout, 0));
    BurstReachesThreshold(Quota(p), p);
    es := burst + [again];
    assert Init(es) == burst && Last(es) == again;
    assert Last(burst) == Wrong(0);
  }

  ghost predicate Bounds(p: Policy) {
    forall es, lo, hi | IsHistory(es, p) && hi - lo <= p.window && NoClearIn(es, lo, hi) ::
      WrongIn(es, lo, hi) <= Quota(p)
  }

  lemma {:induction false} EmptySpan(es: seq<LoginEvent>, lo: Instant, hi: Instant)
    requires hi < lo
    ensures WrongIn(es, lo, hi) == 0
  {
    if es == [] {
    } else {
      EmptySpan(Init(es), lo, hi);
    }
  }

  /** The bound holds of a policy exactly when its lockout is longer than its window, or no span is that short. */
  lemma BoundHoldsIff(p: Policy)
    ensures Bounds(p) <==> p.lockout > p.window || p.window < 0
  {
    if p.window < 0 {
      forall es, lo, hi | IsHistory(es, p) && hi - lo <= p.window && NoClearIn(es, lo, hi)
        ensures WrongIn(es, lo, hi) <= Quota(p)
      {
        EmptySpan(es, lo, hi);
      }
    } else if p.lockout > p.window {
      forall es, lo, hi | IsHistory(es, p) && hi - lo <= p.window && NoClearIn(es, lo, hi)
        ensures WrongIn(es, lo, hi) <= Quota(p)
      {
        LockoutBound(es, p, lo, hi);
      }
    } else {
      var es := ShortLockoutIsBeaten(p);
    }
  }

  // ---------------------------------------------------------------- after the lock

  /** A lock that has not been outlived by a later failure ends lockout after the last failure. */
  lemma {:induction false} LockFollowsLastFailure(es: seq<LoginEvent>, p: Policy)
    requires IsHistory(es, p)
    ensures var s := After(es, p);
      && (s.lastFailedAt.Some? ==> es != [] && s.lastFailedAt.value <= Last(es).at)
      && (s.lockedUntil.Some? ==>
            && s.lastFailedAt.Some?
            && (s.lockedUntil.value == s.lastFailedAt.value + p.lockout || s.lockedUntil.value <= s.lastFailedAt.value))
  {
    if es == [] {
    } else {
      LockFollowsLastFailure(Init(es), p);
    }
  }

  lemma {:induction false} CountsKeepTheLock(es: seq<LoginEvent>, counts: seq<LoginEvent>, p: Policy)
    requires forall i | 0 <= i < |counts| :: counts[i].Count?
    ensures After(es + counts, p).lastFailedAt == After(es, p).lastFailedAt
    ensures After(es + counts, p).lockedUntil == After(es, p).lockedUntil
    decreases |counts|
  {
    if counts == [] {
      assert es + counts == es;
    } else {
      CountsKeepTheLock(es, Init(counts), p);
      assert Init(es + counts) == es + Init(counts) && Last(es + counts) == counts[|counts| - 1];
    }
  }

  /** Once a lock was in force, the next wrong password that is evaluated starts the count at 1. */
  lemma RestartAfterLock(es: seq<LoginEvent>, counts: seq<LoginEvent>, p: Policy, t0: Instant, t: Instant)
    requires p.lockout > p.window
    requires es != [] && Last(es).at <= t0 && Locked(After(es, p), t0)
    requires forall i | 0 <= i < |counts| :: counts[i].Count?
    requires IsHistory(es, p) && IsHistory(es + counts + [Wrong(t)], p)
    ensures After(es + counts + [Wrong(t)], p).failed == 1
  {
    LockFollowsLastFailure(es, p);
    CountsKeepTheLock(es, counts, p);
    var all := es + counts + [Wrong(t)];
    assert Init(all) == es + counts && Last(all) == Wrong(t);
  }

  // ---------------------------------------------------------------- what the columns mean

  /** The times of the wrong passwords since the last clear. */
  function Since(es: seq<LoginEvent>): seq<Instant> {
    if es == [] then []
    else match Last(es)
      case Wrong(at) => Since(Init(es)) + [at]
      case Count(_) => Since(Init(es))
      case Clear(_) => []
  }

  /** k is the length of the longest run of failures at the end of h without a gap beyond the window. */
  ghost predicate IsChain(h: seq<Instant>, window: int, k: int) {
    && 0 <= k <= |h| && (|h| > 0 ==> k > 0)
    && (forall i | |h| - k < i < |h| :: h[i] - h[i - 1] <= window)
    && (0 < k < |h| ==> h[|h| - k] - h[|h| - k - 1] > window)
  }

  lemma ChainIsUnique(h: seq<Instant>, window: int, j: int, k: int)
    requires IsChain(h, window, j) && IsChain(h, window, k)
    ensures j == k
  {
  }

  lemma ChainExtends(h: seq<Instant>, window: int, k: int, at: Instant)
    requires IsChain(h, window, k)
    ensures IsChain(h + [at], window, if h == [] || at - h[|h| - 1] > window then 1 else k + 1)
  {
  }

  ghost predicate IsLongChain(h: seq<Instant>, p: Policy, k: int) {
    IsChain(h, p.window, k) && k >= p.threshold
  }

  ghost predicate EndsInLongChain(h: seq<Instant>, p: Policy) {
    exists k :: IsLongChain(h, p, k)
  }

  /** The failure at position i was the threshold-th of its chain, or a later one. */
  ghost predicate Reaches(h: seq<Instant>, p: Policy, i: int)
    requires 0 <= i < |h|
  {
    EndsInLongChain(h[..i + 1], p)
  }

  /** The failure at i is the latest to reach the threshold. */
  ghost predicate SetsLock(h: seq<Instant>, p: Policy, i: int) {
    0 <= i < |h| && Reaches(h, p, i) && forall j | i < j < |h| :: !Reaches(h, p, j)
  }

  /** locked_until as the history gives it. */
  ghost predicate IsLock(h: seq<Instant>, p: Policy, lock: Option<Instant>) {
    if lock.None? then forall i | 0 <= i < |h| :: !Reaches(h, p, i)
    else exists i :: SetsLock(h, p, i) && lock.value == h[i] + p.lockout
  }

  predicate NoCounts(es: seq<LoginEvent>) {
    forall i | 0 <= i < |es| :: !es[i].Count?
  }

  lemma LastReachesIff(h: seq<Instant>, p: Policy, k: int)
    requires h != [] && IsChain(h, p.window, k)
    ensures Reaches(h, p, |h| - 1) <==> k >= p.threshold
  {
    assert h[..|h| - 1 + 1] == h;
    if k >= p.threshold {
      assert IsLongChain(h, p, k);
    }
    forall j | IsLongChain(h, p, j)
      ensures j == k
    {
      ChainIsUnique(h, p.window, j, k);
    }
  }

  lemma ReachesOnPrefix(h: seq<Instant>, p: Policy, at: Instant, i: int)
    requires 0 <= i < |h|
    ensures Reaches(h + [at], p, i) <==> Reaches(h, p, i)
  {
    assert (h + [at])[..i + 1] == h[..i + 1];
  }

  lemma LockExtends(h: seq<Instant>, p: Policy, lock: Option<Instant>, at: Instant, k: int)
    requires IsLock(h, p, lock) && IsChain(h + [at], p.window, k)
    ensures IsLock(h + [at], p, if k >= p.threshold then Some(at + p.lockout) else lock)
  {
    var g := h + [at];
    LastReachesIff(g, p, k);
    forall i | 0 <= i < |h|
      ensures Reaches(g, p, i) <==> Reaches(h, p, i)
    {
      ReachesOnPrefix(h, p, at, i);
    }
    if k >= p.threshold {
      assert SetsLock(g, p, |h|);
    } else if lock.Some? {
      var i :| SetsLock(h, p, i) && lock.value == h[i] + p.lockout;
      assert SetsLock(g, p, i);
    }
  }

  lemma WrongRefines(h: seq<Instant>, s: LockState, p: Policy, at: Instant)
    requires IsChain(h, p.window, s.failed) && IsLock(h, p, s.lockedUntil)
    requires s.lastFailedAt == if h == [] then None else Some(Last(h))
    ensures var t := AfterWrong(s, p, at);
      IsChain(h + [at], p.window, t.failed) && t.lastFailedAt == Some(at) && IsLock(h + [at], p, t.lockedUntil)
  {
    ChainExtends(h, p.window, s.failed, at);
    LockExtends(h, p, s.lockedUntil, at, AfterWrong(s, p, at).failed);
  }

  /**
   Without counted denials the columns are functions of the failures since the last clear:
   failed_attempts is the length of their last chain, last_failed_at the time of the last one,
   and locked_until that of the latest failure to reach the threshold, plus the lockout.
   */
  lemma {:induction false} ColumnsRefineHistory(es: seq<LoginEvent>, p: Policy)
    requires NoCounts(es)
    ensures var s, h := After(es, p), Since(es);
      && IsChain(h, p.window, s.failed)
      && s.lastFailedAt == (if h == [] then None else Some(Last(h)))
      && IsLock(h, p, s.lockedUntil)
  {
    if es == [] {
    } else {
      assert forall i | 0 <= i < |Init(es)| :: Init(es)[i] == es[i];
      ColumnsRefineHistory(Init(es), p);
      assert Last(es) == es[|es| - 1];
      if Last(es).Wrong? {
        WrongRefines(Since(Init(es)), After(Init(es), p), p, Last(es).at);
      }
    }
  }
}
