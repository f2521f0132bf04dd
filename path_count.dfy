/**
  Day 7, part two: a particle starts at "S" and moves down; at a splitter it goes either
  left or right. The answer is the number of distinct paths to the bottom, counted by a
  recursion that remembers the count of every coordinate it has finished.
 */
module PathCount {
  import opened JsText

  /** `manifold[y][x] === "^"`; past the end of a row the cell is undefined, not a splitter. */
  predicate IsSplitter(manifold: seq<string>, x: int, y: nat)
    requires y < |manifold|
  {
    0 <= x < |manifold[y]| && manifold[y][x] == '^'
  }

  /**
    The number of paths from (x, y): none outside the first row's columns, one below the
    last row, the left and right paths at a splitter, and the path straight down elsewhere.
   */
  function Paths(manifold: seq<string>, x: int, y: nat): nat
    requires |manifold| >= 1
    decreases |manifold| - y
  {
    if x < 0 || x > |manifold[0]| - 1 then 0
    else if y > |manifold| - 1 then 1
    else if IsSplitter(manifold, x, y) then Paths(manifold, x - 1, y + 1) + Paths(manifold, x + 1, y + 1)
    else Paths(manifold, x, y + 1)
  }

  function Pow2(k: nat): nat
  {
    if k == 0 then 1 else 2 * Pow2(k - 1)
  }

  /** Each row at most doubles the paths, so from row y there are at most 2^(rows - y). */
  lemma {:induction false} PathsBound(manifold: seq<string>, x: int, y: nat)
    requires |manifold| >= 1 && y <= |manifold|
    ensures Paths(manifold, x, y) <= Pow2(|manifold| - y)
    decreases |manifold| - y
  {
    if 0 <= x <= |manifold[0]| - 1 && y < |manifold| {
      PathsBound(manifold, x - 1, y + 1);
      PathsBound(manifold, x + 1, y + 1);
      PathsBound(manifold, x, y + 1);
    }
  }

  /** Without splitters below row y, a particle inside the columns has exactly one path. */
  lemma {:induction false} NoSplitterOnePath(manifold: seq<string>, x: int, y: nat)
    requires |manifold| >= 1 && 0 <= x <= |manifold[0]| - 1
    requires forall r :: y <= r < |manifold| ==> !IsSplitter(manifold, x, r)
    ensures Paths(manifold, x, y) == 1
    decreases |manifold| - y
  {
    if y < |manifold| {
      NoSplitterOnePath(manifold, x, y + 1);
    }
  }

  /** The counter with its memo of finished coordinates. */
  class PathCounter {
    const manifold: seq<string>
    var memoizedCoordinateResults: map<(int, nat), nat>

    /** Every remembered count is the count the recursion defines. */
    ghost predicate Valid()
      reads this
    {
      |manifold| >= 1
      && forall key :: key in memoizedCoordinateResults ==> memoizedCoordinateResults[key] == Paths(manifold, key.0, key.1)
    }

    constructor (manifold: seq<string>)
      requires |manifold| >= 1
      ensures Valid()
      ensures this.manifold == manifold && memoizedCoordinateResults == map[]
    {
      this.manifold := manifold;
      memoizedCoordinateResults := map[];
    }

    /** `countPaths`: answers from the memo when it can, and remembers what it computes. */
    method CountPaths(x: int, y: nat) returns (count: nat)
      requires Valid()
      modifies this
      ensures Valid()
      ensures count == Paths(manifold, x, y)
      ensures forall key :: key in old(memoizedCoordinateResults) ==> key in memoizedCoordinateResults
      decreases |manifold| - y
    {
      if (x, y) in memoizedCoordinateResults {
        return memoizedCoordinateResults[(x, y)];
      }
      if x < 0 || x > |manifold[0]| - 1 {
        return 0;
      }
      if y > |manifold| - 1 {
        return 1;
      }
      if IsSplitter(manifold, x, y) {
        var leftCount := CountPaths(x - 1, y + 1);
        var rightCount := CountPaths(x + 1, y + 1);
        var sum := leftCount + rightCount;
        memoizedCoordinateResults := memoizedCoordinateResults[(x, y) := sum];
        return sum;
      } else {
        var straightDownCount := CountPaths(x, y + 1);
        memoizedCoordinateResults := memoizedCoordinateResults[(x, y) := straightDownCount];
        return straightDownCount;
      }
    }
  }

  /**
    Part two: the paths from "S" in the first row. An empty manifold has no first row, and
    reading it throws (None).
   */
  method NumberOfPaths(manifold: seq<string>) returns (numberOfPaths: Option<nat>)
    ensures numberOfPaths.None? <==> |manifold| == 0
    ensures numberOfPaths.Some? ==> numberOfPaths.value == Paths(manifold, IndexOf(manifold[0], 'S'), 0)
    ensures numberOfPaths.Some? ==> numberOfPaths.value <= Pow2(|manifold|)
  {
    if |manifold| == 0 {
      return None;
    }
    var counter := new PathCounter(manifold);
    var count := counter.CountPaths(IndexOf(manifold[0], 'S'), 0);
    PathsBound(manifold, IndexOf(manifold[0], 'S'), 0);
    return Some(count);
  }
}
