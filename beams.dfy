/**
  Day 7, part one: a beam enters the manifold at "S" in the first row and moves down one
  row at a time. A beam whose column holds a splitter "^" is replaced by two beams, one
  column to its left and one to its right; beams that land on the same coordinate merge.
  The answer is the number of splits.
 */
module Beams {
  import opened JsText

  /** A beam's coordinate, as [x, y]. */
  type Beam = (int, int)

  // ---------------------------------------------------------------------------------
  // Splitters in a row

  /** The positions before n that hold a splitter, ascending. */
  function SplitterPositions(row: string, n: nat): seq<int>
    requires n <= |row|
  {
    if n == 0 then [] else SplitterPositions(row, n - 1) + (if row[n - 1] == '^' then [n - 1] else [])
  }

  /** The splitters of a row are exactly its `^` positions, each once, in ascending order. */
  lemma {:induction false} SplitterPositionsExact(row: string, n: nat)
    requires n <= |row|
    ensures forall i, j :: 0 <= i < j < |SplitterPositions(row, n)| ==>
      SplitterPositions(row, n)[i] < SplitterPositions(row, n)[j]
    ensures forall k :: k in SplitterPositions(row, n) <==> 0 <= k < n && row[k] == '^'
  {
    if n > 0 {
      SplitterPositionsExact(row, n - 1);
      var ps := SplitterPositions(row, n - 1);
      forall i | 0 <= i < |ps| ensures ps[i] < n - 1 {
        assert ps[i] in ps;
      }
    }
  }

  lemma {:induction false} SplitterPositionsSkip(row: string, lo: nat, hi: nat)
    requires lo <= hi <= |row|
    requires forall k :: lo <= k < hi ==> row[k] != '^'
    ensures SplitterPositions(row, hi) == SplitterPositions(row, lo)
    decreases hi
  {
    if lo < hi {
      SplitterPositionsSkip(row, lo, hi - 1);
    }
  }

  /** `findSplitterIndicesInString`: the `indexOf` loop collecting every `^`. */
  method FindSplitterIndices(row: string) returns (indices: seq<int>)
    ensures indices == SplitterPositions(row, |row|)
  {
    indices := [];
    ghost var searchedFrom: nat := 0;
    var splitterIndex := IndexOfFrom(row, '^', 0);
    while splitterIndex != -1
      invariant searchedFrom <= |row|
      invariant splitterIndex == IndexOfFrom(row, '^', searchedFrom)
      invariant indices == SplitterPositions(row, searchedFrom)
      decreases |row| - searchedFrom
    {
      SplitterPositionsSkip(row, searchedFrom, splitterIndex);
      indices := indices + [splitterIndex];
      searchedFrom := splitterIndex + 1;
      splitterIndex := IndexOfFrom(row, '^', splitterIndex + 1);
    }
    SplitterPositionsSkip(row, searchedFrom, |row|);
  }

  // ---------------------------------------------------------------------------------
  // One split

  /** `doesAnyBeamCoordinateIntersectSplitter`: `some` beam is in the splitter's column. */
  function AnyBeamAt(beams: seq<Beam>, x: int): bool
  {
    if |beams| == 0 then false else beams[0].0 == x || AnyBeamAt(beams[1..], x)
  }

  lemma {:induction false} AnyBeamAtIff(beams: seq<Beam>, x: int)
    ensures AnyBeamAt(beams, x) <==> exists i :: 0 <= i < |beams| && beams[i].0 == x
  {
    if |beams| > 0 {
      AnyBeamAtIff(beams[1..], x);
      if exists i :: 0 <= i < |beams| && beams[i].0 == x {
        var i :| 0 <= i < |beams| && beams[i].0 == x;
        if i > 0 {
          assert beams[1..][i - 1] == beams[i];
        }
      }
      if AnyBeamAt(beams[1..], x) && beams[0].0 != x {
        var i :| 0 <= i < |beams[1..]| && beams[1..][i].0 == x;
        assert beams[i + 1] == beams[1..][i];
      }
    }
  }

  /** `findIndex`: the first beam in the splitter's column. */
  function FirstBeamAt(beams: seq<Beam>, x: int): (i: nat)
    requires AnyBeamAt(beams, x)
    ensures i < |beams| && beams[i].0 == x
    ensures forall j :: 0 <= j < i ==> beams[j].0 != x
  {
    if beams[0].0 == x then 0
    else
      var i := FirstBeamAt(beams[1..], x);
      assert forall j :: 0 < j <= i ==> beams[j] == beams[1..][j - 1];
      i + 1
  }

  /** Keeps the first occurrence of every coordinate, in order, as the `Set` of keys does. */
  function Dedupe(beams: seq<Beam>): (r: seq<Beam>)
  {
    if |beams| == 0 then []
    else
      var kept := Dedupe(beams[..|beams| - 1]);
      if beams[|beams| - 1] in kept then kept else kept + [beams[|beams| - 1]]
  }

  predicate NoDuplicates(beams: seq<Beam>)
  {
    forall i, j :: 0 <= i < j < |beams| ==> beams[i] != beams[j]
  }

  /** The deduplicated list has no repeated coordinate and holds exactly the same ones. */
  lemma {:induction false} DedupeProperties(beams: seq<Beam>)
    ensures NoDuplicates(Dedupe(beams))
    ensures forall b :: b in Dedupe(beams) <==> b in beams
  {
    if |beams| > 0 {
      var front := beams[..|beams| - 1];
      DedupeProperties(front);
      assert beams == front + [beams[|beams| - 1]];
    }
  }

  /** Deduplicating a list without repeats leaves it unchanged. */
  lemma {:induction false} DedupeOfDistinct(beams: seq<Beam>)
    requires NoDuplicates(beams)
    ensures Dedupe(beams) == beams
  {
    if |beams| > 0 {
      var front := beams[..|beams| - 1];
      DedupeOfDistinct(front);
      assert beams == front + [beams[|beams| - 1]];
    }
  }

  /** The beams before and after a split, without the deduplication. */
  function Replaced(beams: seq<Beam>, x: int): seq<Beam>
    requires AnyBeamAt(beams, x)
  {
    var i := FirstBeamAt(beams, x);
    var (beamX, beamY) := beams[i];
    beams[..i] + [(beamX - 1, beamY), (beamX + 1, beamY)] + beams[i + 1..]
  }

  /** `getDedupedNewBeamCoordinatesAfterSplit`. */
  function SplitAt(beams: seq<Beam>, x: int): seq<Beam>
    requires AnyBeamAt(beams, x)
  {
    Dedupe(Replaced(beams, x))
  }

  /**
    A split leaves no two beams on one coordinate. Its beams are the two new ones beside
    the split beam and every other beam, all on the split beam's row.
   */
  lemma SplitAtProperties(beams: seq<Beam>, x: int)
    requires AnyBeamAt(beams, x)
    ensures NoDuplicates(SplitAt(beams, x))
    ensures var i := FirstBeamAt(beams, x);
      forall b :: b in SplitAt(beams, x) <==>
        b in beams[..i] || b in beams[i + 1..] || b == (x - 1, beams[i].1) || b == (x + 1, beams[i].1)
  {
    DedupeProperties(Replaced(beams, x));
  }

  /**
    When the two new beams land on free coordinates, nothing is merged: the split beam is
    replaced in place and the other beams keep their order.
   */
  lemma SplitKeepsOrder(beams: seq<Beam>, x: int)
    requires AnyBeamAt(beams, x) && NoDuplicates(beams)
    requires var i := FirstBeamAt(beams, x);
      (x - 1, beams[i].1) !in beams && (x + 1, beams[i].1) !in beams
    ensures SplitAt(beams, x) == Replaced(beams, x)
  {
    var i := FirstBeamAt(beams, x);
    var r := Replaced(beams, x);
    ReplacedPositions(beams, x);
    forall p, q | 0 <= p < q < |r| ensures r[p] != r[q] {
      if q < i {
        assert r[p] == beams[p] && r[q] == beams[q];
      } else if q <= i + 1 {
        assert r[q] !in beams;
        if p < i {
          assert r[p] == beams[p];
        }
      } else if p < i {
        assert r[p] == beams[p] && r[q] == beams[q - 1];
      } else if p <= i + 1 {
        assert r[p] !in beams && r[q] == beams[q - 1];
      } else {
        assert r[p] == beams[p - 1] && r[q] == beams[q - 1];
      }
    }
    DedupeOfDistinct(r);
  }

  /**
    Position k of the replaced list holds beams[k] before the split beam, the two new
    beams at i and i + 1, and beams[k - 1] after them.
   */
  lemma ReplacedPositions(beams: seq<Beam>, x: int)
    requires AnyBeamAt(beams, x)
    ensures var i, r := FirstBeamAt(beams, x), Replaced(beams, x);
      |r| == |beams| + 1
      && (forall k :: 0 <= k < i ==> r[k] == beams[k])
      && r[i] == (x - 1, beams[i].1) && r[i + 1] == (x + 1, beams[i].1)
      && (forall k :: i + 1 < k < |r| ==> r[k] == beams[k - 1])
  {
  }

  /** The `forEach` that fills the set of keys, kept here as a list of coordinates. */
  method DedupeBeams(nonDeduped: seq<Beam>) returns (uniqueCoordinates: seq<Beam>)
    ensures uniqueCoordinates == Dedupe(nonDeduped)
  {
    uniqueCoordinates := [];
    for k := 0 to |nonDeduped|
      invariant uniqueCoordinates == Dedupe(nonDeduped[..k])
    {
      assert nonDeduped[..k + 1][..k] == nonDeduped[..k];
      if nonDeduped[k] !in uniqueCoordinates {
        uniqueCoordinates := uniqueCoordinates + [nonDeduped[k]];
      }
    }
    assert nonDeduped[..|nonDeduped|] == nonDeduped;
  }

  /** `getDedupedNewBeamCoordinatesAfterSplit` as the script writes it. */
  method DedupedAfterSplit(beamsCurrentCoordinates: seq<Beam>, splitterIndex: int) returns (newBeams: seq<Beam>)
    requires AnyBeamAt(beamsCurrentCoordinates, splitterIndex)
    ensures newBeams == SplitAt(beamsCurrentCoordinates, splitterIndex)
  {
    var i := FirstBeamAt(beamsCurrentCoordinates, splitterIndex);
    var (beamX, beamY) := beamsCurrentCoordinates[i];
    var nonDeduped := beamsCurrentCoordinates[..i] + [(beamX - 1, beamY), (beamX + 1, beamY)] + beamsCurrentCoordinates[i + 1..];
    newBeams := DedupeBeams(nonDeduped);
  }

  // ---------------------------------------------------------------------------------
  // Rows

  /** The splitters of one row, left to right: the beams after them and the splits counted. */
  function SplitRow(beams: seq<Beam>, splitters: seq<int>): (seq<Beam>, nat)
  {
    if |splitters| == 0 then (beams, 0)
    else
      var (before, count) := SplitRow(beams, splitters[..|splitters| - 1]);
      var s := splitters[|splitters| - 1];
      if AnyBeamAt(before, s) then (SplitAt(before, s), count + 1) else (before, count)
  }

  /** Every beam moves one row down. */
  function Descend(beams: seq<Beam>): seq<Beam>
  {
    seq(|beams|, i requires 0 <= i < |beams| => (beams[i].0, beams[i].1 + 1))
  }

  /** The beams and the split count after the first `rows` rows. */
  function Simulate(manifold: seq<string>, rows: nat): (seq<Beam>, nat)
    requires 1 <= |manifold| && rows <= |manifold|
  {
    if rows == 0 then ([(IndexOf(manifold[0], 'S'), 0)], 0)
    else
      var (beams, splits) := Simulate(manifold, rows - 1);
      var row := manifold[rows - 1];
      var (split, added) := SplitRow(beams, SplitterPositions(row, |row|));
      (Descend(split), splits + added)
  }

  /** The number of splitters in the first `rows` rows. */
  function SplitterCount(manifold: seq<string>, rows: nat): nat
    requires rows <= |manifold|
  {
    if rows == 0 then 0
    else SplitterCount(manifold, rows - 1) + |SplitterPositions(manifold[rows - 1], |manifold[rows - 1]|)|
  }

  predicate OnRow(beams: seq<Beam>, y: int)
  {
    forall i :: 0 <= i < |beams| ==> beams[i].1 == y
  }

  /**
    Within a row, splits keep the beams distinct and on the row, and add at most one per
    splitter.
   */
  lemma {:induction false} SplitRowKeeps(beams: seq<Beam>, splitters: seq<int>, y: int)
    requires NoDuplicates(beams) && OnRow(beams, y)
    ensures NoDuplicates(SplitRow(beams, splitters).0) && OnRow(SplitRow(beams, splitters).0, y)
    ensures SplitRow(beams, splitters).1 <= |splitters|
  {
    if |splitters| > 0 {
      var (before, count) := SplitRow(beams, splitters[..|splitters| - 1]);
      SplitRowKeeps(beams, splitters[..|splitters| - 1], y);
      var s := splitters[|splitters| - 1];
      if AnyBeamAt(before, s) {
        SplitAtProperties(before, s);
        var after := SplitAt(before, s);
        var i := FirstBeamAt(before, s);
        forall k | 0 <= k < |after| ensures after[k].1 == y {
          assert after[k] in after;
        }
      }
    }
  }

  lemma DescendKeepsDistinct(beams: seq<Beam>, y: int)
    requires NoDuplicates(beams) && OnRow(beams, y)
    ensures NoDuplicates(Descend(beams)) && OnRow(Descend(beams), y + 1)
  {
  }

  /**
    After r rows every beam is on row r, no two beams share a coordinate, and no more
    splits were counted than there were splitters.
   */
  lemma {:induction false} SimulateInvariant(manifold: seq<string>, rows: nat)
    requires 1 <= |manifold| && rows <= |manifold|
    ensures NoDuplicates(Simulate(manifold, rows).0)
    ensures OnRow(Simulate(manifold, rows).0, rows)
    ensures Simulate(manifold, rows).1 <= SplitterCount(manifold, rows)
  {
    if rows > 0 {
      SimulateInvariant(manifold, rows - 1);
      var (beams, splits) := Simulate(manifold, rows - 1);
      var row := manifold[rows - 1];
      var splitters := SplitterPositions(row, |row|);
      SplitRowKeeps(beams, splitters, rows - 1);
      DescendKeepsDistinct(SplitRow(beams, splitters).0, rows - 1);
    }
  }

  /** The splitter loop of one row. */
  method SplitThroughRow(beams: seq<Beam>, indicesOfSplitter: seq<int>) returns (beamsCurrentCoordinates: seq<Beam>, splits: nat)
    ensures (beamsCurrentCoordinates, splits) == SplitRow(beams, indicesOfSplitter)
  {
    beamsCurrentCoordinates, splits := beams, 0;
    for k := 0 to |indicesOfSplitter|
      invariant (beamsCurrentCoordinates, splits) == SplitRow(beams, indicesOfSplitter[..k])
    {
      assert indicesOfSplitter[..k + 1][..k] == indicesOfSplitter[..k];
      var splitterIndex := indicesOfSplitter[k];
      if AnyBeamAt(beamsCurrentCoordinates, splitterIndex) {
        splits := splits + 1;
        beamsCurrentCoordinates := DedupedAfterSplit(beamsCurrentCoordinates, splitterIndex);
      }
    }
    assert indicesOfSplitter[..|indicesOfSplitter|] == indicesOfSplitter;
  }

  /** One turn of the row loop: split along the row's splitters, then move down. */
  lemma SimulateStep(manifold: seq<string>, rows: nat, beams: seq<Beam>, splits: nat, beams': seq<Beam>, splits': nat)
    requires 1 <= |manifold| && rows < |manifold|
    requires (beams, splits) == Simulate(manifold, rows)
    requires var row := manifold[rows];
      var (split, added) := SplitRow(beams, SplitterPositions(row, |row|));
      beams' == Descend(split) && splits' == splits + added
    ensures (beams', splits') == Simulate(manifold, rows + 1)
  {
  }

  /**
    Part one: the row loop. Each split adds a fresh array to the set, so its size is the
    number of splits. An empty manifold has no first row, and reading it throws (None).
   */
  method CountSplits(manifold: seq<string>) returns (beamSplits: Option<nat>)
    ensures beamSplits.None? <==> |manifold| == 0
    ensures beamSplits.Some? ==> beamSplits.value == Simulate(manifold, |manifold|).1
    ensures beamSplits.Some? ==> beamSplits.value <= SplitterCount(manifold, |manifold|)
  {
    if |manifold| == 0 {
      return None;
    }
    var beamsCurrentCoordinates: seq<Beam> := [(IndexOf(manifold[0], 'S'), 0)];
    var splitCount: nat := 0;
    for rowIndex := 0 to |manifold|
      invariant (beamsCurrentCoordinates, splitCount) == Simulate(manifold, rowIndex)
    {
      var row := manifold[rowIndex];
      var indicesOfSplitter := FindSplitterIndices(row);
      var added;
      ghost var before, splitsBefore := beamsCurrentCoordinates, splitCount;
      beamsCurrentCoordinates, added := SplitThroughRow(beamsCurrentCoordinates, indicesOfSplitter);
      splitCount := splitCount + added;
      beamsCurrentCoordinates := Descend(beamsCurrentCoordinates);
      SimulateStep(manifold, rowIndex, before, splitsBefore, beamsCurrentCoordinates, splitCount);
    }
    SimulateInvariant(manifold, |manifold|);
    return Some(splitCount);
  }
}
