/** What the modules share: optional values, instants, and small facts about sequences and sets. */
module Basics {
  /** A point in time in microseconds, the resolution of a timestamptz. */
  type Instant = int

  const SECOND: int := 1_000_000

  /** A nullable column or a pointer that may be nil. */
  datatype Option<+T> = None | Some(value: T) {
    /** COALESCE(this, default). */
    function GetOr(default: T): T {
      if Some? then value else default
    }
  }

  function Max(a: int, b: int): int {
    if a < b then b else a
  }

  function Min(a: int, b: int): int {
    if a < b then a else b
  }

  function Init<T>(s: seq<T>): seq<T>
    requires |s| > 0
  {
    s[..|s| - 1]
  }

  function Last<T>(s: seq<T>): T
    requires |s| > 0
  {
    s[|s| - 1]
  }

  /** An element of a set that is not empty. */
  lemma Element<T>(s: set<T>) returns (x: T)
    requires |s| > 0
    ensures x in s
  {
    x :| x in s;
  }

  lemma {:induction false} SubsetSize<T>(small: set<T>, big: set<T>)
    requires small <= big
    ensures |small| <= |big|
    ensures small != big ==> |small| < |big|
    decreases small
  {
    if |small| == 0 {
    } else {
      var x := Element(small);
      SubsetSize(small - {x}, big - {x});
    }
  }

  lemma DisjointSize<T>(a: set<T>, b: set<T>)
    requires a !! b
    ensures |a + b| == |a| + |b|
  {
  }
}
