/**
  Day 9: red tiles on a grid. Part one finds the largest rectangle that has two red tiles
  as opposite corners; part two starts by reducing the red tiles, which walk around a
  rectilinear polygon, to the ones where the walk turns.
 */
module RedTiles {
  import opened PairOrder

  /** A red tile, as [X, Y]. */
  type Tile = (int, int)

  function Abs(x: int): nat
  {
    if x < 0 then -x else x
  }

  /**
    `calculateArea`: the number of tiles in the rectangle with the two tiles as opposite
    corners, counting both edges, so each side is the difference plus one.
   */
  function Area(corner: Tile, oppositeCorner: Tile): (area: nat)
    ensures area >= Abs(corner.0 - oppositeCorner.0) + 1 && area >= Abs(corner.1 - oppositeCorner.1) + 1
  {
    var height := Abs(corner.1 - oppositeCorner.1) + 1;
    var width := Abs(corner.0 - oppositeCorner.0) + 1;
    height * width
  }

  /** The area does not depend on which corner comes first; one tile alone has area 1. */
  lemma AreaSymmetric(corner: Tile, oppositeCorner: Tile)
    ensures Area(corner, oppositeCorner) == Area(oppositeCorner, corner)
    ensures Area(corner, corner) == 1
  {
    assert Abs(corner.0 - oppositeCorner.0) == Abs(oppositeCorner.0 - corner.0);
    assert Abs(corner.1 - oppositeCorner.1) == Abs(oppositeCorner.1 - corner.1);
  }

  /** Two tiles on one row span a rectangle one tile high. */
  lemma AreaOfRow(x: int, x': int, y: int)
    ensures Area((x, y), (x', y)) == Abs(x - x') + 1
  {
  }

  // ---------------------------------------------------------------------------------
  // Part one: the largest rectangle

  /** Every visited index pair is a pair of tiles. */
  predicate WithinTiles(redTileCoordinates: seq<Tile>, visited: seq<(nat, nat)>)
  {
    forall k :: 0 <= k < |visited| ==> visited[k].0 < visited[k].1 < |redTileCoordinates|
  }

  /** `maxArea` is the largest area of the visited pairs, and 0 before any pair. */
  predicate IsMaxOver(redTileCoordinates: seq<Tile>, visited: seq<(nat, nat)>, maxArea: nat)
    requires WithinTiles(redTileCoordinates, visited)
  {
    (forall k :: 0 <= k < |visited| ==>
      Area(redTileCoordinates[visited[k].0], redTileCoordinates[visited[k].1]) <= maxArea)
    && (if visited == [] then maxArea == 0
        else exists k :: 0 <= k < |visited| && maxArea == Area(redTileCoordinates[visited[k].0], redTileCoordinates[visited[k].1]))
  }

  /** The inner loop: `Math.max` of the area so far and the area with each later tile. */
  method MaxAreaInRow(redTileCoordinates: seq<Tile>, outerIndex: nat, maxArea: nat, ghost visited: seq<(nat, nat)>)
    returns (rowMaxArea: nat, ghost rowVisited: seq<(nat, nat)>)
    requires outerIndex < |redTileCoordinates|
    requires WithinTiles(redTileCoordinates, visited) && IsMaxOver(redTileCoordinates, visited, maxArea)
    ensures rowVisited == visited + RowPairs(outerIndex, outerIndex + 1, |redTileCoordinates|)
    ensures WithinTiles(redTileCoordinates, rowVisited) && IsMaxOver(redTileCoordinates, rowVisited, rowMaxArea)
  {
    var n := |redTileCoordinates|;
    rowMaxArea := maxArea;
    rowVisited := visited;
    var innerIndex := outerIndex + 1;
    while innerIndex < n
      invariant outerIndex + 1 <= innerIndex <= n
      invariant rowVisited + RowPairs(outerIndex, innerIndex, n) == visited + RowPairs(outerIndex, outerIndex + 1, n)
      invariant WithinTiles(redTileCoordinates, rowVisited) && IsMaxOver(redTileCoordinates, rowVisited, rowMaxArea)
      decreases n - innerIndex
    {
      var area := Area(redTileCoordinates[outerIndex], redTileCoordinates[innerIndex]);
      assert RowPairs(outerIndex, innerIndex, n) == [(outerIndex, innerIndex)] + RowPairs(outerIndex, innerIndex + 1, n);
      AppendAssociates(rowVisited, [(outerIndex, innerIndex)], RowPairs(outerIndex, innerIndex + 1, n));
      MaxStep(redTileCoordinates, rowVisited, rowMaxArea, outerIndex, innerIndex);
      rowMaxArea := if rowMaxArea >= area then rowMaxArea else area;
      rowVisited := rowVisited + [(outerIndex, innerIndex)];
      innerIndex := innerIndex + 1;
    }
  }

  /** Taking `Math.max` with one more pair keeps the maximum over the visited pairs. */
  lemma MaxStep(redTileCoordinates: seq<Tile>, visited: seq<(nat, nat)>, maxArea: nat, i: nat, j: nat)
    requires WithinTiles(redTileCoordinates, visited) && IsMaxOver(redTileCoordinates, visited, maxArea)
    requires i < j < |redTileCoordinates|
    ensures WithinTiles(redTileCoordinates, visited + [(i, j)])
    ensures var area := Area(redTileCoordinates[i], redTileCoordinates[j]);
      IsMaxOver(redTileCoordinates, visited + [(i, j)], if maxArea >= area then maxArea else area)
  {
    var area := Area(redTileCoordinates[i], redTileCoordinates[j]);
    var next := visited + [(i, j)];
    var nextMax := if maxArea >= area then maxArea else area;
    assert forall k :: 0 <= k < |visited| ==> next[k] == visited[k];
    if maxArea >= area && visited != [] {
      var k :| 0 <= k < |visited| && maxArea == Area(redTileCoordinates[visited[k].0], redTileCoordinates[visited[k].1]);
      assert next[k] == visited[k];
    } else {
      assert next[|visited|] == (i, j);
    }
  }

  /** The maximum over the visited pairs, once they are all index pairs, is over all pairs. */
  lemma MaxOverEveryPair(redTileCoordinates: seq<Tile>, visited: seq<(nat, nat)>, maxArea: nat)
    requires visited == IndexPairs(|redTileCoordinates|)
    requires WithinTiles(redTileCoordinates, visited) && IsMaxOver(redTileCoordinates, visited, maxArea)
    ensures forall i, j :: 0 <= i < j < |redTileCoordinates| ==>
      Area(redTileCoordinates[i], redTileCoordinates[j]) <= maxArea
    ensures |redTileCoordinates| < 2 ==> maxArea == 0
    ensures |redTileCoordinates| >= 2 ==>
      exists i, j :: 0 <= i < j < |redTileCoordinates| && maxArea == Area(redTileCoordinates[i], redTileCoordinates[j])
  {
    IndexPairsMembership(|redTileCoordinates|);
    EveryPairBounded(redTileCoordinates, visited, maxArea);
    MaxAttained(redTileCoordinates, visited, maxArea);
    if |redTileCoordinates| >= 2 {
      assert (0, 1) in visited;
    }
  }

  /** Every pair of tiles is visited, so its area is at most the maximum. */
  lemma EveryPairBounded(redTileCoordinates: seq<Tile>, visited: seq<(nat, nat)>, maxArea: nat)
    requires forall p :: p in visited <==> p.0 < p.1 < |redTileCoordinates|
    requires WithinTiles(redTileCoordinates, visited) && IsMaxOver(redTileCoordinates, visited, maxArea)
    ensures forall i, j :: 0 <= i < j < |redTileCoordinates| ==>
      Area(redTileCoordinates[i], redTileCoordinates[j]) <= maxArea
  {
    forall i, j | 0 <= i < j < |redTileCoordinates| ensures Area(redTileCoordinates[i], redTileCoordinates[j]) <= maxArea {
      assert (i, j) in visited;
      var k :| 0 <= k < |visited| && visited[k] == (i, j);
      assert Area(redTileCoordinates[visited[k].0], redTileCoordinates[visited[k].1]) <= maxArea;
    }
  }

  /** Once some pair is visited, the maximum is the area of a pair of tiles. */
  lemma MaxAttained(redTileCoordinates: seq<Tile>, visited: seq<(nat, nat)>, maxArea: nat)
    requires WithinTiles(redTileCoordinates, visited) && IsMaxOver(redTileCoordinates, visited, maxArea)
    ensures visited == [] ==> maxArea == 0
    ensures visited != [] ==>
      exists i, j :: 0 <= i < j < |redTileCoordinates| && maxArea == Area(redTileCoordinates[i], redTileCoordinates[j])
  {
    if visited != [] {
      var k :| 0 <= k < |visited| && maxArea == Area(redTileCoordinates[visited[k].0], redTileCoordinates[visited[k].1]);
      var i, j := visited[k].0, visited[k].1;
      assert 0 <= i < j < |redTileCoordinates| && maxArea == Area(redTileCoordinates[i], redTileCoordinates[j]);
    }
  }

  /** The outer loop: one inner loop per tile. */
  method MaxAreaOverRows(redTileCoordinates: seq<Tile>) returns (maxArea: nat, ghost visited: seq<(nat, nat)>)
    ensures visited == IndexPairs(|redTileCoordinates|)
    ensures WithinTiles(redTileCoordinates, visited) && IsMaxOver(redTileCoordinates, visited, maxArea)
  {
    var n := |redTileCoordinates|;
    maxArea := 0;
    visited := [];
    assert visited + PairsFrom(0, n) == IndexPairs(n);
    var outerIndex := 0;
    while outerIndex < n
      invariant outerIndex <= n
      invariant visited + PairsFrom(outerIndex, n) == IndexPairs(n)
      invariant WithinTiles(redTileCoordinates, visited) && IsMaxOver(redTileCoordinates, visited, maxArea)
      decreases n - outerIndex
    {
      AppendAssociates(visited, RowPairs(outerIndex, outerIndex + 1, n), PairsFrom(outerIndex + 1, n));
      maxArea, visited := MaxAreaInRow(redTileCoordinates, outerIndex, maxArea, visited);
      outerIndex := outerIndex + 1;
    }
    assert PairsFrom(n, n) == [];
    assert visited + [] == visited;
  }

  /**
    Part one: the nested loops over every pair of tiles, keeping the largest area. It is
    at least the area of every pair and equals the area of some pair, and stays 0 with
    fewer than two tiles.
   */
  method MaxArea(redTileCoordinates: seq<Tile>) returns (maxArea: nat, ghost visited: seq<(nat, nat)>)
    ensures visited == IndexPairs(|redTileCoordinates|)
    ensures forall i, j :: 0 <= i < j < |redTileCoordinates| ==>
      Area(redTileCoordinates[i], redTileCoordinates[j]) <= maxArea
    ensures |redTileCoordinates| < 2 ==> maxArea == 0
    ensures |redTileCoordinates| >= 2 ==>
      exists i, j :: 0 <= i < j < |redTileCoordinates| && maxArea == Area(redTileCoordinates[i], redTileCoordinates[j])
  {
    maxArea, visited := MaxAreaOverRows(redTileCoordinates);
    MaxOverEveryPair(redTileCoordinates, visited, maxArea);
  }

  // ---------------------------------------------------------------------------------
  // Part two: the corners of the polygon

  /**
    `isCoordinateAVertex`: the walk turns at a tile when the tiles before and after it
    differ in both X and Y.
   */
  predicate IsCoordinateAVertex(previousCoordinate: Tile, nextCoordinate: Tile)
  {
    previousCoordinate.0 != nextCoordinate.0 && previousCoordinate.1 != nextCoordinate.1
  }

  /** The tile after tile i, going round: the last tile is followed by the first. */
  function NextCoordinate(coordinates: seq<Tile>, i: nat): Tile
    requires i < |coordinates|
  {
    if i == |coordinates| - 1 then coordinates[0] else coordinates[i + 1]
  }

  /** The tile before tile i, going round: the first tile follows the last. */
  function PreviousCoordinate(coordinates: seq<Tile>, i: nat): Tile
    requires i < |coordinates|
  {
    if i == 0 then coordinates[|coordinates| - 1] else coordinates[i - 1]
  }

  predicate IsCorner(coordinates: seq<Tile>, i: nat)
    requires i < |coordinates|
  {
    IsCoordinateAVertex(PreviousCoordinate(coordinates, i), NextCoordinate(coordinates, i))
  }

  /** The positions among the first n tiles where the walk turns, in order. */
  function CornerPositions(coordinates: seq<Tile>, n: nat): (positions: seq<nat>)
    requires n <= |coordinates|
    ensures forall k :: 0 <= k < |positions| ==> positions[k] < n
  {
    if n == 0 then []
    else CornerPositions(coordinates, n - 1) + (if IsCorner(coordinates, n - 1) then [n - 1] else [])
  }

  /** The corner tiles among the first n, in order. */
  function CornersUpTo(coordinates: seq<Tile>, n: nat): seq<Tile>
    requires n <= |coordinates|
  {
    if n == 0 then []
    else CornersUpTo(coordinates, n - 1) + (if IsCorner(coordinates, n - 1) then [coordinates[n - 1]] else [])
  }

  function Corners(coordinates: seq<Tile>): seq<Tile>
  {
    CornersUpTo(coordinates, |coordinates|)
  }

  /**
    The corners are the tiles at the corner positions; those rise strictly, so the corners
    are a subsequence of the tiles in their order, and they are exactly the positions where
    the walk turns.
   */
  lemma {:induction false} CornersMeaning(coordinates: seq<Tile>, n: nat)
    requires n <= |coordinates|
    ensures |CornersUpTo(coordinates, n)| == |CornerPositions(coordinates, n)|
    ensures forall k :: 0 <= k < |CornerPositions(coordinates, n)| ==>
      CornersUpTo(coordinates, n)[k] == coordinates[CornerPositions(coordinates, n)[k]]
    ensures forall k, l :: 0 <= k < l < |CornerPositions(coordinates, n)| ==>
      CornerPositions(coordinates, n)[k] < CornerPositions(coordinates, n)[l]
    ensures forall i :: 0 <= i < n ==> (i in CornerPositions(coordinates, n) <==> IsCorner(coordinates, i))
  {
    if n > 0 {
      CornersMeaning(coordinates, n - 1);
    }
  }

  /**
    `findVertices`: walks the tiles once and adds each tile where the walk turns. The set
    holds array references in the order they were added; the model keeps that order.
   */
  method FindVertices(coordinates: seq<Tile>) returns (vertices: seq<Tile>)
    ensures vertices == Corners(coordinates)
  {
    vertices := [];
    for i := 0 to |coordinates|
      invariant vertices == CornersUpTo(coordinates, i)
    {
      var currentCoordinate := coordinates[i];
      var nextCoordinate := if i == |coordinates| - 1 then coordinates[0] else coordinates[i + 1];
      var previousCoordinate := if i == 0 then coordinates[|coordinates| - 1] else coordinates[i - 1];
      if IsCoordinateAVertex(previousCoordinate, nextCoordinate) {
        vertices := vertices + [currentCoordinate];
      }
    }
  }

  /** A walk that turns at every tile is its own list of vertices. */
  lemma {:induction false} AllTurnsKeepAllTiles(coordinates: seq<Tile>, n: nat)
    requires n <= |coordinates|
    requires forall i :: 0 <= i < |coordinates| ==> IsCorner(coordinates, i)
    ensures CornersUpTo(coordinates, n) == coordinates[..n]
  {
    if n > 0 {
      AllTurnsKeepAllTiles(coordinates, n - 1);
      assert coordinates[..n] == coordinates[..n - 1] + [coordinates[n - 1]];
    }
  }

  /** A walk that turns nowhere has no vertices. */
  lemma {:induction false} NoTurnsNoVertices(coordinates: seq<Tile>, n: nat)
    requires n <= |coordinates|
    requires forall i :: 0 <= i < |coordinates| ==> !IsCorner(coordinates, i)
    ensures CornersUpTo(coordinates, n) == []
  {
    if n > 0 {
      NoTurnsNoVertices(coordinates, n - 1);
    }
  }

  /** The four corners of a square all stay. */
  lemma SquareKeepsAllCorners()
    ensures Corners([(-1, 1), (1, 1), (1, -1), (-1, -1)]) == [(-1, 1), (1, 1), (1, -1), (-1, -1)]
  {
    var square := [(-1, 1), (1, 1), (1, -1), (-1, -1)];
    assert CornersUpTo(square, 1) == [(-1, 1)];
    assert CornersUpTo(square, 2) == [(-1, 1), (1, 1)];
    assert CornersUpTo(square, 3) == [(-1, 1), (1, 1), (1, -1)];
    assert CornersUpTo(square, 4) == square;
  }

  /** The twelve tiles of the polygon reduce to its eight corners. */
  lemma PolygonDropsPassThroughTiles()
    ensures Corners([(-4, 1), (-2, 1), (-2, 4), (1, 4), (1, 3), (3, 3), (5, 3), (5, -1), (5, -5), (1, -5), (-4, -5), (-4, -2)])
      == [(-4, 1), (-2, 1), (-2, 4), (1, 4), (1, 3), (5, 3), (5, -5), (-4, -5)]
  {
    var polygon := [(-4, 1), (-2, 1), (-2, 4), (1, 4), (1, 3), (3, 3), (5, 3), (5, -1), (5, -5), (1, -5), (-4, -5), (-4, -2)];
    PolygonFirstCorners(polygon);
    assert CornersUpTo(polygon, 7) == [(-4, 1), (-2, 1), (-2, 4), (1, 4), (1, 3), (5, 3)];
    assert CornersUpTo(polygon, 8) == CornersUpTo(polygon, 7);
    assert CornersUpTo(polygon, 9) == [(-4, 1), (-2, 1), (-2, 4), (1, 4), (1, 3), (5, 3), (5, -5)];
    assert CornersUpTo(polygon, 10) == CornersUpTo(polygon, 9);
    assert CornersUpTo(polygon, 11) == [(-4, 1), (-2, 1), (-2, 4), (1, 4), (1, 3), (5, 3), (5, -5), (-4, -5)];
  }

  /** The corners among the polygon's first six tiles. */
  lemma PolygonFirstCorners(polygon: seq<Tile>)
    requires polygon == [(-4, 1), (-2, 1), (-2, 4), (1, 4), (1, 3), (3, 3), (5, 3), (5, -1), (5, -5), (1, -5), (-4, -5), (-4, -2)]
    ensures CornersUpTo(polygon, 6) == [(-4, 1), (-2, 1), (-2, 4), (1, 4), (1, 3)]
  {
    assert CornersUpTo(polygon, 1) == [(-4, 1)];
    assert CornersUpTo(polygon, 2) == [(-4, 1), (-2, 1)];
    assert CornersUpTo(polygon, 3) == [(-4, 1), (-2, 1), (-2, 4)];
    assert CornersUpTo(polygon, 4) == [(-4, 1), (-2, 1), (-2, 4), (1, 4)];
    assert CornersUpTo(polygon, 5) == [(-4, 1), (-2, 1), (-2, 4), (1, 4), (1, 3)];
  }
}
