/**
 The sliding-window attempt limiter in front of Login: the in-memory map of recent attempts,
 compacted in place, against the full history of allowed attempts.
 */
module AttemptWindow {
  import opened Basics

  /** The entries of s no older than the window, in order. */
  function Recent(s: seq<Instant>, now: Instant, window: int): seq<Instant> {
    if s == [] then []
    else
      var n := |s| - 1;
      Recent(s[..n], now, window) + if now - s[n] <= window then [s[n]] else []
  }

  type Log = map<string, seq<Instant>>

  function LogOf(log: Log, key: string): seq<Instant> {
    if key in log then log[key] else []
  }

  predicate Admits(s: seq<Instant>, max: int, window: int, now: Instant) {
    |Recent(s, now, window)| < max
  }

  /** What a call leaves of one key's entries. */
  function Updated(s: seq<Instant>, max: int, window: int, now: Instant): seq<Instant> {
    Recent(s, now, window) + if Admits(s, max, window, now) then [now] else []
  }

  // ---------------------------------------------------------------- the handler's state

  /** A Go slice: the first len elements of a backing array. */
  datatype Slice = Slice(data: array<Instant>, len: nat) {
    predicate Fits() {
      len <= data.Length
    }

    ghost function Items(): seq<Instant>
      reads data
      requires Fits()
    {
      data[..len]
    }
  }

  /** The two-index loop: what is recent moves to the front, in order. */
  method Compact(qs: Slice, now: Instant, window: int) returns (i: nat)
    requires qs.Fits()
    modifies qs.data
    ensures i <= qs.len
    ensures qs.(len := i).Items() == Recent(old(qs.Items()), now, window)
  {
    var a := qs.data;
    ghost var was := a[..qs.len];
    i := 0;
    var j := 0;
    while j < qs.len
      invariant 0 <= i <= j <= qs.len
      invariant a[..i] == Recent(was[..j], now, window)
      invariant forall k | j <= k < qs.len :: a[k] == was[k]
    {
      var t := a[j];
      assert was[..j + 1][..j] == was[..j];
      ghost var kept := a[..i];
      if now - t <= window {
        a[i] := t;
        i := i + 1;
        assert a[..i] == kept + [t];
      }
      j := j + 1;
    }
    assert was[..qs.len] == was;
  }

  /** append: in place while the backing array has room, into a larger copy otherwise. */
  method Append(qs: Slice, t: Instant) returns (r: Slice)
    requires qs.Fits()
    modifies qs.data
    ensures r.Fits() && (r.data == qs.data || fresh(r.data))
    ensures r.Items() == old(qs.Items()) + [t]
  {
    if qs.len < qs.data.Length {
      qs.data[qs.len] := t;
      r := Slice(qs.data, qs.len + 1);
      assert qs.data[..qs.len + 1] == qs.data[..qs.len] + [t];
    } else {
      var grown := new Instant[2 * qs.len + 1];
      for k := 0 to qs.len
        invariant grown[..k] == qs.data[..k]
        invariant qs.data[..] == old(qs.data[..])
      {
        grown[k] := qs.data[k];
      }
      grown[qs.len] := t;
      r := Slice(grown, qs.len + 1);
      assert grown[..qs.len + 1] == grown[..qs.len] + [t];
    }
  }

  /** Each slice lies within its array, and no two keys share an array. */
  ghost predicate Separate(slices: map<string, Slice>) {
    && (forall k | k in slices :: slices[k].Fits())
    && (forall j, k | j in slices && k in slices && j != k :: slices[j].data != slices[k].data)
  }

  /** The slice shares its array with no key but its own. */
  ghost predicate Owns(slices: map<string, Slice>, key: string, qs: Slice) {
    qs.Fits() && forall k | k in slices && k != key :: slices[k].data != qs.data
  }

  lemma ReplacedStaysSeparate(slices: map<string, Slice>, key: string, qs: Slice)
    requires Separate(slices) && Owns(slices, key, qs)
    ensures Separate(slices[key := qs])
  {
  }

  lemma RestIsKept(before: Log, between: Log, key: string, entries: seq<Instant>)
    requires before.Keys == between.Keys && forall k | k in before && k != key :: between[k] == before[k]
    ensures before[key := entries] == between[key := entries]
  {
  }

  class AttemptLimiter {
    var attempts: map<string, Slice>

    ghost function Arrays(): set<array<Instant>>
      reads this
    {
      set k | k in attempts :: attempts[k].data
    }

    ghost predicate Valid()
      reads this
    {
      Separate(attempts)
    }

    ghost function Contents(): Log
      reads this, Arrays()
      requires Valid()
    {
      map k | k in attempts :: attempts[k].Items()
    }

    constructor ()
      ensures Valid() && Contents() == map[]
    {
      attempts := map[];
    }

    /** The slice that replaces the key's entries; the map itself is not written yet. */
    method Filtered(key: string, max: int, window: int, now: Instant) returns (allowed: bool, qs: Slice)
      requires Valid()
      modifies Arrays()
      ensures Valid() && Owns(attempts, key, qs) && (qs.data in Arrays() || fresh(qs.data))
      ensures forall k | k in attempts && k != key :: attempts[k].Items() == old(attempts[k].Items())
      ensures allowed <==> Admits(LogOf(old(Contents()), key), max, window, now)
      ensures qs.Items() == Updated(LogOf(old(Contents()), key), max, window, now)
    {
      var none := new Instant[0];
      qs := if key in attempts then attempts[key] else Slice(none, 0);
      assert qs.Items() == LogOf(Contents(), key);
      var i := Compact(qs, now, window);
      qs := qs.(len := i);
      allowed := qs.len < max;
      if allowed {
        qs := Append(qs, now);
      }
    }

    /** h.attempts[key] = qs. */
    method Store(key: string, qs: Slice)
      requires Valid() && Owns(attempts, key, qs)
      modifies this
      ensures Valid() && Arrays() <= old(Arrays()) + {qs.data}
      ensures Contents() == old(Contents())[key := qs.Items()]
    {
      ReplacedStaysSeparate(attempts, key, qs);
      attempts := attempts[key := qs];
    }

    /** allowAttempt. Only the entries of the key change: to their recent part, plus now when allowed. */
    method AllowAttempt(key: string, max: int, window: int, now: Instant) returns (allowed: bool)
      requires Valid()
      modifies this, Arrays()
      ensures Valid() && fresh(Arrays() - old(Arrays()))
      ensures allowed <==> Admits(LogOf(old(Contents()), key), max, window, now)
      ensures Contents() == old(Contents())[key := Updated(LogOf(old(Contents()), key), max, window, now)]
      ensures var entries := if key in old(Contents()) then old(Contents())[key] else [];
        && (allowed <==> |Recent(entries, now, window)| < max)
        && Contents()[key] == Recent(entries, now, window) + if allowed then [now] else []
    {
      var qs;
      allowed, qs := Filtered(key, max, window, now);
      assert forall k | k in attempts && k != key :: Contents()[k] == old(Contents())[k];
      RestIsKept(old(Contents()), Contents(), key, qs.Items());
      Store(key, qs);
    }
  }
}

/** What the limiter guarantees over whole histories of calls. */
module AttemptHistory {
  import opened Basics
  import opened AttemptWindow

  /** A call for a key at a time. */
  datatype Call = Call(key: string, at: Instant)

  /** The entries stored for the key after the calls, by the limiter's own rule. */
  function Stored(calls: seq<Call>, max: int, window: int): Log {
    if calls == [] then map[]
    else
      var n := |calls| - 1;
      var log := Stored(calls[..n], max, window);
      log[calls[n].key := Updated(LogOf(log, calls[n].key), max, window, calls[n].at)]
  }

  /** Every attempt ever allowed for the key: the history the limiter throws away. */
  function Allowed(calls: seq<Call>, key: string, max: int, window: int): seq<Instant> {
    if calls == [] then []
    else
      var n := |calls| - 1;
      Allowed(calls[..n], key, max, window)
      + if calls[n].key == key && Admits(LogOf(Stored(calls[..n], max, window), key), max, window, calls[n].at)
        then [calls[n].at] else []
  }

  predicate Monotone(calls: seq<Call>) {
    forall i, j | 0 <= i <= j < |calls| :: calls[i].at <= calls[j].at
  }

  /** A single entry stays exactly when it is no older than the window ... */
  lemma RecentOfOne(t: Instant, now: Instant, window: int)
    ensures Recent([t], now, window) == if now - t <= window then [t] else []
  {
    assert [t][..0] == [];
  }

  /** ... and entries are judged one by one, in order: together these two determine Recent. */
  lemma {:induction false} RecentOfSum(a: seq<Instant>, b: seq<Instant>, now: Instant, window: int)
    ensures Recent(a + b, now, window) == Recent(a, now, window) + Recent(b, now, window)
  {
    if b == [] {
      assert a + b == a;
    } else {
      var n := |b| - 1;
      RecentOfSum(a, b[..n], now, window);
      assert (a + b)[..|a + b| - 1] == a + b[..n];
    }
  }

  lemma {:induction false} RecentOfRecent(s: seq<Instant>, t: Instant, now: Instant, window: int)
    requires t <= now
    ensures Recent(Recent(s, t, window), now, window) == Recent(s, now, window)
  {
    if s == [] {
    } else {
      var n := |s| - 1;
      RecentOfRecent(s[..n], t, now, window);
      if t - s[n] <= window {
        RecentOfSum(Recent(s[..n], t, window), [s[n]], now, window);
        RecentOfOne(s[n], now, window);
        assert Recent(s[..n], now, window) + [] == Recent(s[..n], now, window);
      } else {
        assert Recent(s, t, window) == Recent(s[..n], t, window);
        assert Recent(s, now, window) == Recent(s[..n], now, window);
      }
    }
  }

  /** From any time after the last call, the stored entries and the full history look alike. */
  lemma {:induction false} StoredSeesHistory(calls: seq<Call>, key: string, max: int, window: int, now: Instant)
    requires Monotone(calls) && forall i | 0 <= i < |calls| :: calls[i].at <= now
    ensures Recent(LogOf(Stored(calls, max, window), key), now, window)
            == Recent(Allowed(calls, key, max, window), now, window)
    decreases |calls|
  {
    if calls == [] {
    } else {
      var n := |calls| - 1;
      var log, t := Stored(calls[..n], max, window), calls[n].at;
      StoredSeesHistory(calls[..n], key, max, window, now);
      if calls[n].key == key {
        var s := LogOf(log, key);
        var extra := if Admits(s, max, window, t) then [t] else [];
        assert LogOf(Stored(calls, max, window), key) == Recent(s, t, window) + extra;
        assert Allowed(calls, key, max, window) == Allowed(calls[..n], key, max, window) + extra;
        RecentOfSum(Recent(s, t, window), extra, now, window);
        RecentOfRecent(s, t, now, window);
        RecentOfSum(Allowed(calls[..n], key, max, window), extra, now, window);
      } else {
        assert Allowed(calls, key, max, window) == Allowed(calls[..n], key, max, window);
      }
    }
  }

  /**
   The compacted store refines the full history: a call is denied exactly when the unpruned
   history holds max recent entries, and it leaves what one pass over that whole history would.
   */
  lemma StoreRefinesHistory(calls: seq<Call>, key: string, max: int, window: int, now: Instant)
    requires Monotone(calls + [Call(key, now)])
    ensures Admits(LogOf(Stored(calls, max, window), key), max, window, now)
            <==> |Recent(Allowed(calls, key, max, window), now, window)| < max
    ensures LogOf(Stored(calls + [Call(key, now)], max, window), key)
            == Updated(Allowed(calls, key, max, window), max, window, now)
  {
    var all := calls + [Call(key, now)];
    assert all[..|calls|] == calls && all[|calls|].at == now;
    forall i | 0 <= i < |calls|
      ensures calls[i] == all[i] && calls[i].at <= now
    {
    }
    StoredSeesHistory(calls, key, max, window, now);
  }

  lemma {:induction false} RecentIsShorter(s: seq<Instant>, now: Instant, window: int)
    ensures |Recent(s, now, window)| <= |s|
  {
    if s == [] {
    } else {
      RecentIsShorter(s[..|s| - 1], now, window);
    }
  }

  /** The store never holds more than max entries for a key. */
  lemma {:induction false} StoreIsBounded(calls: seq<Call>, key: string, max: int, window: int)
    ensures |LogOf(Stored(calls, max, window), key)| <= Max(max, 0)
    decreases |calls|
  {
    if calls == [] {
    } else {
      var n := |calls| - 1;
      var s := LogOf(Stored(calls[..n], max, window), key);
      StoreIsBounded(calls[..n], key, max, window);
      RecentIsShorter(s, calls[n].at, window);
    }
  }

  /** The calls for one key. */
  function For(calls: seq<Call>, key: string): seq<Call> {
    if calls == [] then []
    else For(calls[..|calls| - 1], key) + if calls[|calls| - 1].key == key then [calls[|calls| - 1]] else []
  }

  /** Keys do not affect each other: the calls for other keys can be struck from the history. */
  lemma {:induction false} KeysAreIndependent(calls: seq<Call>, key: string, max: int, window: int)
    ensures LogOf(Stored(calls, max, window), key) == LogOf(Stored(For(calls, key), max, window), key)
    ensures Allowed(calls, key, max, window) == Allowed(For(calls, key), key, max, window)
    decreases |calls|
  {
    if calls == [] {
    } else {
      var n := |calls| - 1;
      KeysAreIndependent(calls[..n], key, max, window);
      if calls[n].key == key {
        var own := For(calls[..n], key);
        assert (own + [calls[n]])[..|own|] == own;
      } else {
        assert For(calls, key) == For(calls[..n], key);
      }
    }
  }

  // ---------------------------------------------------------------- the bound

  /** How many entries lie in the closed interval [lo, hi]. */
  function CountIn(s: seq<Instant>, lo: Instant, hi: Instant): nat {
    if s == [] then 0
    else CountIn(s[..|s| - 1], lo, hi) + if lo <= s[|s| - 1] <= hi then 1 else 0
  }

  /** CountIn counts the positions whose entry lies in the closed interval. */
  lemma {:induction false} CountInCounts(s: seq<Instant>, lo: Instant, hi: Instant)
    ensures CountIn(s, lo, hi) == |set i | 0 <= i < |s| && lo <= s[i] <= hi|
  {
    if s == [] {
    } else {
      var n := |s| - 1;
      CountInCounts(s[..n], lo, hi);
      var before := set i | 0 <= i < n && lo <= s[..n][i] <= hi;
      assert (set i | 0 <= i < |s| && lo <= s[i] <= hi) == before + if lo <= s[n] <= hi then {n} else {};
    }
  }

  lemma {:induction false} CountAtMostRecent(s: seq<Instant>, lo: Instant, hi: Instant, now: Instant, window: int)
    requires now - window <= lo
    ensures CountIn(s, lo, hi) <= |Recent(s, now, window)|
  {
    if s == [] {
    } else {
      CountAtMostRecent(s[..|s| - 1], lo, hi, now, window);
    }
  }

  lemma {:induction false} CountSplits(s: seq<Instant>, lo: Instant, mid: Instant, hi: Instant)
    requires lo <= mid <= hi
    ensures CountIn(s, lo, hi) <= CountIn(s, lo, mid) + CountIn(s, mid, hi)
    ensures CountIn(s, lo, mid) <= CountIn(s, lo, hi)
  {
    if s == [] {
    } else {
      CountSplits(s[..|s| - 1], lo, mid, hi);
    }
  }

  lemma AddedToWindow(past: seq<Instant>, t: Instant, max: int, window: int, lo: Instant)
    requires |Recent(past, t, window)| < max && CountIn(past, lo, lo + window) <= max
    ensures CountIn(past + [t], lo, lo + window) <= max
  {
    assert (past + [t])[..|past|] == past;
    if lo <= t <= lo + window {
      CountAtMostRecent(past, lo, lo + window, t, window);
    }
  }

  /** No closed interval as long as the window holds more than max allowed attempts of a key. */
  lemma {:induction false} WindowBound(calls: seq<Call>, key: string, max: int, window: int, lo: Instant)
    requires Monotone(calls)
    ensures CountIn(Allowed(calls, key, max, window), lo, lo + window) <= Max(max, 0)
    decreases |calls|
  {
    if calls == [] {
    } else {
      var n := |calls| - 1;
      var t, past := calls[n].at, Allowed(calls[..n], key, max, window);
      WindowBound(calls[..n], key, max, window, lo);
      if calls[n].key == key && Admits(LogOf(Stored(calls[..n], max, window), key), max, window, t) {
        StoredSeesHistory(calls[..n], key, max, window, t);
        AddedToWindow(past, t, max, window, lo);
        assert Allowed(calls, key, max, window) == past + [t];
      } else {
        assert Allowed(calls, key, max, window) == past;
      }
    }
  }

  lemma Distribute(k: int, n: int)
    ensures k * (n + 1) == k + k * n
  {
  }

  lemma MoreWindows(k: nat, n: nat)
    ensures k <= k * (n + 1)
  {
    Distribute(k, n);
    assert k * n >= 0;
  }

  lemma {:induction false} SpanOfWindows(
    calls: seq<Call>, key: string, max: int, window: int, lo: Instant, length: nat, n: nat)
    requires Monotone(calls) && window > 0 && length <= window * (n + 1)
    ensures CountIn(Allowed(calls, key, max, window), lo, lo + length) <= Max(max, 0) * (n + 1)
    decreases n
  {
    var s, quota := Allowed(calls, key, max, window), Max(max, 0);
    WindowBound(calls, key, max, window, lo);
    Distribute(window, n);
    Distribute(quota, n);
    if length <= window {
      CountSplits(s, lo, lo + length, lo + window);
      MoreWindows(quota, n);
    } else if n > 0 {
      CountSplits(s, lo, lo + window, lo + length);
      assert window * ((n - 1) + 1) == window * n && quota * ((n - 1) + 1) == quota * n;
      SpanOfWindows(calls, key, max, window, lo + window, length - window, n - 1);
    }
  }

  /** A span of any length holds at most max attempts per started window. */
  lemma SpanBound(calls: seq<Call>, key: string, max: int, window: int, lo: Instant, length: nat)
    requires Monotone(calls) && window > 0
    ensures CountIn(Allowed(calls, key, max, window), lo, lo + length) <= Max(max, 0) * (length / window + 1)
  {
    Distribute(window, length / window);
    SpanOfWindows(calls, key, max, window, lo, length, length / window);
  }
}
