/**
  Day 5: fresh ingredient ids are given as inclusive ranges "a-b". Part one counts the
  available ids that fall in some range; part two sorts the ranges by their lower
  bound, merges overlapping or adjacent ones, and counts every id the ranges cover.
 */
module FreshRanges {
  import opened JsText

  /** An inclusive range of ids, as [min, max]. */
  type Range = (int, int)

  // ---------------------------------------------------------------------------------
  // Part one

  /**
    `Number(range.split("-")[k])`: a missing piece is `undefined`, which `Number` turns
    into NaN (None) just as it does text that is not a digit run.
   */
  function Bound(pieces: seq<string>, k: nat): Option<nat>
  {
    if k < |pieces| then Number(pieces[k]) else None
  }

  /** The two bounds part one reads from "a-b". */
  function ParseBounds(range: string): (Option<nat>, Option<nat>)
  {
    var pieces := Split(range, '-');
    (Bound(pieces, 0), Bound(pieces, 1))
  }

  /** Writing a range out as "a-b" and parsing it gives back [a, b]. */
  lemma ParseBoundsOfRange(lo: nat, hi: nat)
    ensures ParseBounds(DecimalString(lo) + "-" + DecimalString(hi)) == (Some(lo), Some(hi))
  {
    SplitDigitRuns(DecimalString(lo), DecimalString(hi), '-');
    NumberOfDecimalString(lo);
    NumberOfDecimalString(hi);
  }

  /** `min <= id && id <= max`; any comparison with NaN is false. */
  predicate InBounds(bounds: (Option<nat>, Option<nat>), id: int)
  {
    bounds.0.Some? && bounds.1.Some? && bounds.0.value <= id <= bounds.1.value
  }

  /** An id is fresh when some range holds it. */
  predicate IsFresh(minMaxs: seq<(Option<nat>, Option<nat>)>, id: int)
  {
    exists j :: 0 <= j < |minMaxs| && InBounds(minMaxs[j], id)
  }

  /** The available ids that are fresh, in their order, each kept once per occurrence. */
  function FreshIds(ids: seq<int>, minMaxs: seq<(Option<nat>, Option<nat>)>): seq<int>
  {
    if |ids| == 0 then []
    else
      FreshIds(ids[..|ids| - 1], minMaxs)
        + (if IsFresh(minMaxs, ids[|ids| - 1]) then [ids[|ids| - 1]] else [])
  }

  /** An id is kept exactly when it is available and fresh. */
  lemma {:induction false} FreshIdsMembership(ids: seq<int>, minMaxs: seq<(Option<nat>, Option<nat>)>)
    ensures forall id :: id in FreshIds(ids, minMaxs) <==> id in ids && IsFresh(minMaxs, id)
  {
    if |ids| > 0 {
      var front := ids[..|ids| - 1];
      FreshIdsMembership(front, minMaxs);
      assert ids == front + [ids[|ids| - 1]];
    }
  }

  /**
    No id is kept more often than it is available, so the count never exceeds the
    number of available ids.
   */
  lemma {:induction false} FreshIdsWithinIds(ids: seq<int>, minMaxs: seq<(Option<nat>, Option<nat>)>)
    ensures multiset(FreshIds(ids, minMaxs)) <= multiset(ids)
    ensures |FreshIds(ids, minMaxs)| <= |ids|
  {
    if |ids| > 0 {
      var front := ids[..|ids| - 1];
      FreshIdsWithinIds(front, minMaxs);
      assert ids == front + [ids[|ids| - 1]];
    }
  }

  /** The `forEach` that turns every range into its two bounds. */
  method ParseRanges(freshIngredientIDRanges: seq<string>) returns (minMaxs: seq<(Option<nat>, Option<nat>)>)
    ensures |minMaxs| == |freshIngredientIDRanges|
    ensures forall j :: 0 <= j < |minMaxs| ==> minMaxs[j] == ParseBounds(freshIngredientIDRanges[j])
  {
    minMaxs := [];
    for j := 0 to |freshIngredientIDRanges|
      invariant |minMaxs| == j
      invariant forall k :: 0 <= k < j ==> minMaxs[k] == ParseBounds(freshIngredientIDRanges[k])
    {
      var pieces := Split(freshIngredientIDRanges[j], '-');
      var leftBound := Bound(pieces, 0);
      var rightBound := Bound(pieces, 1);
      minMaxs := minMaxs + [(leftBound, rightBound)];
    }
  }

  /** The inner `for … of` loop with its `break`: does any range hold the id? */
  method AnyRangeHolds(minMaxs: seq<(Option<nat>, Option<nat>)>, id: int) returns (found: bool)
    ensures found <==> IsFresh(minMaxs, id)
  {
    found := false;
    var j := 0;
    while j < |minMaxs|
      invariant 0 <= j <= |minMaxs|
      invariant forall k :: 0 <= k < j ==> !InBounds(minMaxs[k], id)
    {
      var (min, max) := minMaxs[j];
      if min.Some? && max.Some? && min.value <= id && id <= max.value {
        found := true;
        break;
      }
      j := j + 1;
    }
  }

  /** Part one: the fresh available ids, whose number is the answer. */
  method CountFresh(availableIngredientIDs: seq<int>, freshIngredientIDRanges: seq<string>)
    returns (availableFreshIngredientIDs: seq<int>)
    ensures availableFreshIngredientIDs
      == FreshIds(availableIngredientIDs, seq(|freshIngredientIDRanges|, j requires 0 <= j < |freshIngredientIDRanges| => ParseBounds(freshIngredientIDRanges[j])))
  {
    var minMaxs := ParseRanges(freshIngredientIDRanges);
    assert minMaxs == seq(|freshIngredientIDRanges|, j requires 0 <= j < |freshIngredientIDRanges| => ParseBounds(freshIngredientIDRanges[j]));
    availableFreshIngredientIDs := [];
    for i := 0 to |availableIngredientIDs|
      invariant availableFreshIngredientIDs == FreshIds(availableIngredientIDs[..i], minMaxs)
    {
      assert availableIngredientIDs[..i + 1][..i] == availableIngredientIDs[..i];
      var id := availableIngredientIDs[i];
      var found := AnyRangeHolds(minMaxs, id);
      if found {
        availableFreshIngredientIDs := availableFreshIngredientIDs + [id];
      }
    }
    assert availableIngredientIDs[..|availableIngredientIDs|] == availableIngredientIDs;
  }

  // ---------------------------------------------------------------------------------
  // Part two: parsing and sorting

  /** Part two reads "a-b" with `map(Number)`; both bounds must be digit runs. */
  predicate IsRangeText(range: string)
  {
    var pieces := Split(range, '-');
    |pieces| >= 2 && IsDigitRun(pieces[0]) && IsDigitRun(pieces[1])
  }

  function ParseRange(range: string): Range
    requires IsRangeText(range)
  {
    var pieces := Split(range, '-');
    (DecimalValue(pieces[0]), DecimalValue(pieces[1]))
  }

  /** Part two reads "a-b" written from two numbers back as [a, b]. */
  lemma ParseRangeOfRange(lo: nat, hi: nat)
    ensures IsRangeText(DecimalString(lo) + "-" + DecimalString(hi))
    ensures ParseRange(DecimalString(lo) + "-" + DecimalString(hi)) == (lo, hi)
  {
    SplitDigitRuns(DecimalString(lo), DecimalString(hi), '-');
    NumberOfDecimalString(lo);
    NumberOfDecimalString(hi);
  }

  predicate SortedByMin(ranges: seq<Range>)
  {
    forall i, j :: 0 <= i < j < |ranges| ==> ranges[i].0 <= ranges[j].0
  }

  /** Inserts a range after every range whose min is at most its own. */
  function InsertByMin(x: Range, sorted: seq<Range>): (r: seq<Range>)
    ensures |r| == |sorted| + 1
  {
    if |sorted| == 0 then [x]
    else if sorted[|sorted| - 1].0 <= x.0 then sorted + [x]
    else InsertByMin(x, sorted[..|sorted| - 1]) + [sorted[|sorted| - 1]]
  }

  lemma {:induction false} InsertByMinPermutation(x: Range, sorted: seq<Range>)
    ensures multiset(InsertByMin(x, sorted)) == multiset(sorted) + multiset{x}
  {
    if |sorted| > 0 && x.0 < sorted[|sorted| - 1].0 {
      var front := sorted[..|sorted| - 1];
      InsertByMinPermutation(x, front);
      assert sorted == front + [sorted[|sorted| - 1]];
    }
  }

  lemma {:induction false} InsertByMinSorted(x: Range, sorted: seq<Range>)
    requires SortedByMin(sorted)
    ensures SortedByMin(InsertByMin(x, sorted))
  {
    if |sorted| > 0 && x.0 < sorted[|sorted| - 1].0 {
      var last := sorted[|sorted| - 1];
      var front := sorted[..|sorted| - 1];
      InsertByMinSorted(x, front);
      InsertByMinPermutation(x, front);
      var inserted := InsertByMin(x, front);
      forall i | 0 <= i < |inserted| ensures inserted[i].0 <= last.0 {
        assert inserted[i] in multiset(front) + multiset{x};
        if inserted[i] != x {
          var k :| 0 <= k < |front| && front[k] == inserted[i];
        }
      }
    }
  }

  /** `sort((a, b) => a[0] - b[0])` on the parsed ranges. */
  function SortByMin(ranges: seq<Range>): (r: seq<Range>)
    ensures |r| == |ranges|
  {
    if |ranges| == 0 then []
    else InsertByMin(ranges[|ranges| - 1], SortByMin(ranges[..|ranges| - 1]))
  }

  /** The sort orders the ranges by min and is a permutation of its input. */
  lemma {:induction false} SortByMinSortsAndPermutes(ranges: seq<Range>)
    ensures SortedByMin(SortByMin(ranges))
    ensures multiset(SortByMin(ranges)) == multiset(ranges)
  {
    if |ranges| > 0 {
      var front := ranges[..|ranges| - 1];
      SortByMinSortsAndPermutes(front);
      InsertByMinSorted(ranges[|ranges| - 1], SortByMin(front));
      InsertByMinPermutation(ranges[|ranges| - 1], SortByMin(front));
      assert ranges == front + [ranges[|ranges| - 1]];
    }
  }

  // ---------------------------------------------------------------------------------
  // Part two: merging

  function Max(a: int, b: int): int
  {
    if a >= b then a else b
  }

  /**
    The merge loop from a current range over the ranges still to come: a next range that
    starts at most one past the current max extends it; any other closes the current
    range and becomes the new current one. The last current range is always emitted.
   */
  function Merge(current: Range, rest: seq<Range>): (merged: seq<Range>)
    ensures |merged| >= 1 && merged[0].0 == current.0
    decreases |rest|
  {
    if |rest| == 0 then [current]
    else if rest[0].0 <= current.1 + 1 then Merge((current.0, Max(current.1, rest[0].1)), rest[1..])
    else [current] + Merge(rest[0], rest[1..])
  }

  /** The ids an inclusive range covers. */
  function RangeSet(r: Range): set<int>
    decreases r.1 - r.0
  {
    if r.1 < r.0 then {} else RangeSet((r.0, r.1 - 1)) + {r.1}
  }

  lemma {:induction false} RangeSetMembers(r: Range)
    ensures forall x :: x in RangeSet(r) <==> r.0 <= x <= r.1
    decreases r.1 - r.0
  {
    if r.0 <= r.1 {
      RangeSetMembers((r.0, r.1 - 1));
    }
  }

  /** The ids some range of the list covers. */
  function Covered(ranges: seq<Range>): set<int>
  {
    if |ranges| == 0 then {} else RangeSet(ranges[0]) + Covered(ranges[1..])
  }

  predicate IsValid(r: Range)
  {
    r.0 <= r.1
  }

  predicate AllValid(ranges: seq<Range>)
  {
    forall i :: 0 <= i < |ranges| ==> IsValid(ranges[i])
  }

  /** Each range starts more than one past the max of every range before it. */
  predicate Separated(ranges: seq<Range>)
  {
    forall i, j :: 0 <= i < j < |ranges| ==> ranges[j].0 > ranges[i].1 + 1
  }

  lemma {:induction false} CoveredMembership(ranges: seq<Range>, x: int)
    ensures x in Covered(ranges) <==> exists j :: 0 <= j < |ranges| && ranges[j].0 <= x <= ranges[j].1
  {
    if |ranges| > 0 {
      RangeSetMembers(ranges[0]);
      CoveredMembership(ranges[1..], x);
      if x in Covered(ranges[1..]) {
        var j :| 0 <= j < |ranges[1..]| && ranges[1..][j].0 <= x <= ranges[1..][j].1;
        assert ranges[j + 1] == ranges[1..][j];
      }
      if exists j :: 0 <= j < |ranges| && ranges[j].0 <= x <= ranges[j].1 {
        var j :| 0 <= j < |ranges| && ranges[j].0 <= x <= ranges[j].1;
        if j > 0 {
          assert ranges[1..][j - 1] == ranges[j];
        }
      }
    }
  }

  /** Reordering the ranges covers the same ids. */
  lemma CoveredOfPermutation(a: seq<Range>, b: seq<Range>)
    requires multiset(a) == multiset(b)
    ensures Covered(a) == Covered(b)
  {
    forall x ensures x in Covered(a) <==> x in Covered(b) {
      CoveredMembership(a, x);
      CoveredMembership(b, x);
      if exists j :: 0 <= j < |a| && a[j].0 <= x <= a[j].1 {
        var j :| 0 <= j < |a| && a[j].0 <= x <= a[j].1;
        assert a[j] in multiset(b);
        var k :| 0 <= k < |b| && b[k] == a[j];
      }
      if exists j :: 0 <= j < |b| && b[j].0 <= x <= b[j].1 {
        var j :| 0 <= j < |b| && b[j].0 <= x <= b[j].1;
        assert b[j] in multiset(a);
        var k :| 0 <= k < |a| && a[k] == b[j];
      }
    }
  }

  /** Every merged range starts no earlier than the current range did. */
  lemma {:induction false} MergeMinsFrom(current: Range, rest: seq<Range>)
    requires SortedByMin(rest)
    requires forall k :: 0 <= k < |rest| ==> current.0 <= rest[k].0
    ensures forall i :: 0 <= i < |Merge(current, rest)| ==> current.0 <= Merge(current, rest)[i].0
    decreases |rest|
  {
    if |rest| > 0 {
      var later := rest[1..];
      assert SortedByMin(later) by {
        forall i, j | 0 <= i < j < |later| ensures later[i].0 <= later[j].0 {
          assert later[i] == rest[i + 1] && later[j] == rest[j + 1];
        }
      }
      if rest[0].0 <= current.1 + 1 {
        var extended := (current.0, Max(current.1, rest[0].1));
        forall k | 0 <= k < |later| ensures extended.0 <= later[k].0 {
          assert later[k] == rest[k + 1];
        }
        MergeMinsFrom(extended, later);
      } else {
        forall k | 0 <= k < |later| ensures rest[0].0 <= later[k].0 {
          assert later[k] == rest[k + 1];
        }
        MergeMinsFrom(rest[0], later);
        var tail := Merge(rest[0], later);
        assert Merge(current, rest) == [current] + tail;
        forall i | 0 <= i < |Merge(current, rest)| ensures current.0 <= Merge(current, rest)[i].0 {
          if i > 0 {
            assert Merge(current, rest)[i] == tail[i - 1];
          }
        }
      }
    }
  }

  /**
    On ranges sorted by min, the merge keeps every range valid, separates each from the
    next by a gap, and covers exactly the ids the current range and the rest cover.
   */
  lemma {:induction false} MergeProperties(current: Range, rest: seq<Range>)
    requires IsValid(current) && AllValid(rest) && SortedByMin(rest)
    requires forall k :: 0 <= k < |rest| ==> current.0 <= rest[k].0
    ensures AllValid(Merge(current, rest))
    ensures Separated(Merge(current, rest))
    ensures Covered(Merge(current, rest)) == RangeSet(current) + Covered(rest)
    decreases |rest|
  {
    if |rest| > 0 {
      var next := rest[0];
      var later := rest[1..];
      SortedTail(current, rest);
      if next.0 <= current.1 + 1 {
        var extended := (current.0, Max(current.1, next.1));
        MergeProperties(extended, later);
        ExtendedCovers(current, next);
      } else {
        MergeProperties(next, later);
        MergeMinsFrom(next, later);
        var tail := Merge(next, later);
        PrependSeparated(current, tail);
        assert ([current] + tail)[1..] == tail;
      }
    }
  }

  /** The rest after the first of sorted valid ranges is again sorted and valid. */
  lemma SortedTail(current: Range, rest: seq<Range>)
    requires |rest| > 0 && AllValid(rest) && SortedByMin(rest)
    requires forall k :: 0 <= k < |rest| ==> current.0 <= rest[k].0
    ensures AllValid(rest[1..]) && SortedByMin(rest[1..])
    ensures forall k :: 0 <= k < |rest[1..]| ==> rest[0].0 <= rest[1..][k].0 && current.0 <= rest[1..][k].0
    ensures Covered(rest) == RangeSet(rest[0]) + Covered(rest[1..])
  {
    var later := rest[1..];
    forall k | 0 <= k < |later| ensures later[k] == rest[k + 1] {
    }
  }

  /** A range that overlaps or touches the current one extends it to cover both. */
  lemma ExtendedCovers(current: Range, next: Range)
    requires IsValid(current) && IsValid(next) && current.0 <= next.0 <= current.1 + 1
    ensures RangeSet((current.0, Max(current.1, next.1))) == RangeSet(current) + RangeSet(next)
  {
    var extended := (current.0, Max(current.1, next.1));
    RangeSetMembers(extended);
    RangeSetMembers(current);
    RangeSetMembers(next);
    forall x ensures x in RangeSet(extended) <==> x in RangeSet(current) + RangeSet(next) {
    }
  }

  /** A range that ends more than one before every later min keeps the list separated. */
  lemma PrependSeparated(current: Range, tail: seq<Range>)
    requires |tail| >= 1 && Separated(tail) && tail[0].0 > current.1 + 1
    requires forall i :: 0 <= i < |tail| ==> tail[0].0 <= tail[i].0
    ensures Separated([current] + tail)
  {
    var merged := [current] + tail;
    forall i, j | 0 <= i < j < |merged| ensures merged[j].0 > merged[i].1 + 1 {
      assert merged[j] == tail[j - 1];
      if i > 0 {
        assert merged[i] == tail[i - 1];
      }
    }
  }

  /** Part two's merged ranges for sorted input, or None when there is no range at all. */
  function MergeSorted(sorted: seq<Range>): Option<seq<Range>>
  {
    if |sorted| == 0 then None else Some(Merge(sorted[0], sorted[1..]))
  }

  /** The merge loop; `freshIngredientIDRangesSorted[0]` is undefined on empty input and
      destructuring it throws, written None. */
  method MergeRanges(sorted: seq<Range>) returns (result: Option<seq<Range>>)
    ensures result == MergeSorted(sorted)
  {
    if |sorted| == 0 {
      return None;
    }
    var merged: seq<Range> := [];
    var (currentMin, currentMax) := sorted[0];
    for nextIndex := 1 to |sorted|
      invariant merged + Merge((currentMin, currentMax), sorted[nextIndex..]) == Merge(sorted[0], sorted[1..])
    {
      var nextMin := sorted[nextIndex].0;
      var nextMax := sorted[nextIndex].1;
      assert sorted[nextIndex..][1..] == sorted[nextIndex + 1..];
      if nextMin <= currentMax + 1 {
        currentMax := Max(currentMax, nextMax);
      } else {
        merged := merged + [(currentMin, currentMax)];
        currentMin, currentMax := nextMin, nextMax;
      }
    }
    merged := merged + [(currentMin, currentMax)];
    return Some(merged);
  }

  /** `rangeMax - rangeMin + 1`, added up over the merged ranges. */
  function SizeSum(ranges: seq<Range>): int
  {
    if |ranges| == 0 then 0 else (ranges[0].1 - ranges[0].0 + 1) + SizeSum(ranges[1..])
  }

  /** The final `reduce`. */
  method CountCovered(merged: seq<Range>) returns (count: int)
    ensures count == SizeSum(merged)
  {
    count := 0;
    var i := |merged|;
    assert merged[..i] == merged;
    while i > 0
      invariant 0 <= i <= |merged|
      invariant count + SizeSum(merged[..i]) == SizeSum(merged)
    {
      i := i - 1;
      SizeSumSplit(merged, i);
      count := count + (merged[i].1 - merged[i].0 + 1);
    }
  }

  lemma {:induction false} SizeSumSplit(ranges: seq<Range>, i: nat)
    requires i < |ranges|
    ensures SizeSum(ranges[..i + 1]) == SizeSum(ranges[..i]) + (ranges[i].1 - ranges[i].0 + 1)
  {
    if i == 0 {
      assert ranges[..1][1..] == [];
    } else {
      var tail := ranges[1..];
      SizeSumSplit(tail, i - 1);
      assert ranges[..i + 1][1..] == tail[..i];
      assert ranges[..i][1..] == tail[..i - 1];
    }
  }

  lemma {:induction false} RangeSetSize(r: Range)
    requires IsValid(r)
    ensures |RangeSet(r)| == r.1 - r.0 + 1
    decreases r.1 - r.0
  {
    if r.0 < r.1 {
      var shorter := (r.0, r.1 - 1);
      RangeSetSize(shorter);
      RangeSetMembers(shorter);
      assert r.1 !in RangeSet(shorter);
    } else {
      assert RangeSet((r.0, r.1 - 1)) == {};
    }
  }

  /** For valid, separated ranges the sum of the sizes is the number of ids covered. */
  lemma {:induction false} SizeSumIsCount(ranges: seq<Range>)
    requires AllValid(ranges) && Separated(ranges)
    ensures SizeSum(ranges) == |Covered(ranges)|
  {
    if |ranges| > 0 {
      var tail := ranges[1..];
      assert Separated(tail) by {
        forall i, j | 0 <= i < j < |tail| ensures tail[j].0 > tail[i].1 + 1 {
          assert tail[i] == ranges[i + 1] && tail[j] == ranges[j + 1];
        }
      }
      SizeSumIsCount(tail);
      RangeSetSize(ranges[0]);
      RangeSetMembers(ranges[0]);
      forall x | x in Covered(tail) ensures x !in RangeSet(ranges[0]) {
        CoveredMembership(tail, x);
        var j :| 0 <= j < |tail| && tail[j].0 <= x <= tail[j].1;
        assert tail[j] == ranges[j + 1];
      }
      assert RangeSet(ranges[0]) * Covered(tail) == {};
    }
  }

  /**
    Part two from the text of the ranges: parse, sort by min, merge, count. For any
    non-empty input of valid ranges the merged ranges are valid, separated by gaps and
    cover exactly the ids the input covers, and the count is the number of those ids.
   */
  method CountFreshIds(freshIngredientIDRanges: seq<string>) returns (count: Option<int>)
    requires forall j :: 0 <= j < |freshIngredientIDRanges| ==> IsRangeText(freshIngredientIDRanges[j])
    ensures |freshIngredientIDRanges| == 0 <==> count == None
    ensures count.Some? ==>
      var ranges := seq(|freshIngredientIDRanges|, j requires 0 <= j < |freshIngredientIDRanges| => ParseRange(freshIngredientIDRanges[j]));
      var sorted := SortByMin(ranges);
      count.value == SizeSum(MergeSorted(sorted).value)
  {
    var ranges := seq(|freshIngredientIDRanges|, j requires 0 <= j < |freshIngredientIDRanges| => ParseRange(freshIngredientIDRanges[j]));
    var sorted := SortByMin(ranges);
    var merged := MergeRanges(sorted);
    if merged.None? {
      return None;
    }
    var n := CountCovered(merged.value);
    return Some(n);
  }

  /**
    What part two's answer means: for valid ranges, the merged list is valid, separated,
    covers exactly the ids of the input, and its size sum counts them.
   */
  lemma MergedCountsCoveredIds(ranges: seq<Range>)
    requires |ranges| >= 1 && AllValid(ranges)
    ensures var merged := MergeSorted(SortByMin(ranges)).value;
      AllValid(merged) && Separated(merged)
      && Covered(merged) == Covered(ranges)
      && SizeSum(merged) == |Covered(ranges)|
  {
    var sorted := SortByMin(ranges);
    SortByMinSortsAndPermutes(ranges);
    PermutationValid(sorted, ranges);
    SortedTail(sorted[0], sorted);
    MergeProperties(sorted[0], sorted[1..]);
    CoveredOfPermutation(sorted, ranges);
    SizeSumIsCount(Merge(sorted[0], sorted[1..]));
  }

  /** Reordering valid ranges leaves them valid. */
  lemma PermutationValid(a: seq<Range>, b: seq<Range>)
    requires multiset(a) == multiset(b) && AllValid(b)
    ensures AllValid(a)
  {
    forall i | 0 <= i < |a| ensures IsValid(a[i]) {
      assert a[i] in multiset(b);
    }
  }
}
