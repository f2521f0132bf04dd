/**
  Day 8, part two: junction boxes are joined pair by pair, closest pair first, with a
  union-find kept in a map from each box to its parent. When a join leaves a single
  circuit, the product of the two boxes' X coordinates is printed.
 */
module Circuits {
  import opened JsText
  import opened PairOrder

  /** A junction box, as [X, Y, Z]. */
  type Coord = (int, int, int)

  function Max(a: nat, b: nat): nat
  {
    if a >= b then a else b
  }

  // ---------------------------------------------------------------------------------
  // Parent maps that form a forest

  /**
    Every parent is itself a key, and a ghost level that grows strictly from a box to its
    parent and stays within bound shows that following parents always ends at a root.
   */
  predicate IsForest(parent: map<Coord, Coord>, level: map<Coord, nat>, bound: nat)
  {
    (forall k {:trigger parent[k]} :: k in parent ==> parent[k] in parent && k in level && level[k] <= bound)
    && (forall k :: k in parent && parent[k] != k ==> level[k] < level[parent[k]])
  }

  /** The root reached by following parents from k. */
  function RootOf(parent: map<Coord, Coord>, level: map<Coord, nat>, bound: nat, k: Coord): (r: Coord)
    requires IsForest(parent, level, bound) && k in parent
    ensures r in parent && parent[r] == r
    decreases bound - level[k]
  {
    if parent[k] == k then k else RootOf(parent, level, bound, parent[k])
  }

  /** Making any box its own parent keeps the parent map a forest. */
  lemma MakeRootKeepsForest(parent: map<Coord, Coord>, level: map<Coord, nat>, bound: nat, c: Coord)
    requires IsForest(parent, level, bound)
    ensures IsForest(parent[c := c], level[c := if c in parent then level[c] else 0], bound)
  {
    var parent', level' := parent[c := c], level[c := if c in parent then level[c] else 0];
    forall k | k in parent' ensures parent'[k] in parent' && k in level' && level'[k] <= bound {
      if k != c {
        assert parent'[k] == parent[k];
      }
    }
    forall k | k in parent' && parent'[k] != k ensures level'[k] < level'[parent'[k]] {
      assert k != c && parent'[k] == parent[k] && level'[k] == level[k];
      assert parent[k] in parent;
      assert level'[parent[k]] == level[parent[k]];
    }
  }

  /** The level that keeps the forest ordered once rootB points to rootA. */
  function LinkLevel(level: map<Coord, nat>, rootA: Coord, rootB: Coord): map<Coord, nat>
    requires rootA in level && rootB in level
  {
    level[rootA := Max(level[rootA], level[rootB] + 1)]
  }

  function LinkBound(level: map<Coord, nat>, bound: nat, rootA: Coord, rootB: Coord): nat
    requires rootA in level && rootB in level
  {
    Max(bound, Max(level[rootA], level[rootB] + 1))
  }

  /** Pointing one root at another root keeps the parent map a forest. */
  lemma LinkKeepsForest(parent: map<Coord, Coord>, level: map<Coord, nat>, bound: nat, rootA: Coord, rootB: Coord)
    requires IsForest(parent, level, bound)
    requires rootA in parent && parent[rootA] == rootA
    requires rootB in parent && parent[rootB] == rootB
    requires rootA != rootB
    ensures IsForest(parent[rootB := rootA], LinkLevel(level, rootA, rootB), LinkBound(level, bound, rootA, rootB))
  {
    var parent', level', bound' := parent[rootB := rootA], LinkLevel(level, rootA, rootB), LinkBound(level, bound, rootA, rootB);
    forall k | k in parent' ensures parent'[k] in parent' && k in level' && level'[k] <= bound' {
      if k != rootB {
        assert parent'[k] == parent[k];
      }
    }
    forall k | k in parent' && parent'[k] != k ensures level'[k] < level'[parent'[k]] {
      if k != rootB {
        assert k != rootA && parent'[k] == parent[k];
        assert level'[k] == level[k] && level[parent[k]] <= level'[parent[k]];
      }
    }
  }

  /**
    After rootB points to rootA, every box whose root was rootB has root rootA, and every
    other box keeps its root.
   */
  lemma {:induction false} LinkRoots(parent: map<Coord, Coord>, level: map<Coord, nat>, bound: nat, rootA: Coord, rootB: Coord, k: Coord)
    requires IsForest(parent, level, bound)
    requires rootA in parent && parent[rootA] == rootA
    requires rootB in parent && parent[rootB] == rootB
    requires rootA != rootB && k in parent
    ensures IsForest(parent[rootB := rootA], LinkLevel(level, rootA, rootB), LinkBound(level, bound, rootA, rootB))
    ensures RootOf(parent[rootB := rootA], LinkLevel(level, rootA, rootB), LinkBound(level, bound, rootA, rootB), k)
      == if RootOf(parent, level, bound, k) == rootB then rootA else RootOf(parent, level, bound, k)
    decreases bound - level[k]
  {
    LinkKeepsForest(parent, level, bound, rootA, rootB);
    var parent' := parent[rootB := rootA];
    var level' := LinkLevel(level, rootA, rootB);
    var bound' := LinkBound(level, bound, rootA, rootB);
    if parent[k] == k {
      if k == rootB {
        assert RootOf(parent', level', bound', rootA) == rootA;
      }
    } else {
      LinkRoots(parent, level, bound, rootA, rootB, parent[k]);
    }
  }

  /** The circuits of the boxes: the set of their roots. */
  function Roots(parent: map<Coord, Coord>, level: map<Coord, nat>, bound: nat, boxes: seq<Coord>): set<Coord>
    requires IsForest(parent, level, bound)
    requires forall c :: c in boxes ==> c in parent
  {
    set c | c in boxes :: RootOf(parent, level, bound, c)
  }

  /**
    Joining two boxes of different circuits removes exactly one circuit: rootB's circuit
    becomes part of rootA's.
   */
  lemma LinkDropsOneCircuit(parent: map<Coord, Coord>, level: map<Coord, nat>, bound: nat, rootA: Coord, rootB: Coord, boxes: seq<Coord>)
    requires IsForest(parent, level, bound)
    requires forall c :: c in boxes ==> c in parent
    requires rootA in Roots(parent, level, bound, boxes) && rootB in Roots(parent, level, bound, boxes)
    requires rootA != rootB
    ensures IsForest(parent[rootB := rootA], LinkLevel(level, rootA, rootB), LinkBound(level, bound, rootA, rootB))
    ensures Roots(parent[rootB := rootA], LinkLevel(level, rootA, rootB), LinkBound(level, bound, rootA, rootB), boxes)
      == Roots(parent, level, bound, boxes) - {rootB}
    ensures |Roots(parent[rootB := rootA], LinkLevel(level, rootA, rootB), LinkBound(level, bound, rootA, rootB), boxes)|
        == |Roots(parent, level, bound, boxes)| - 1
  {
    LinkKeepsForest(parent, level, bound, rootA, rootB);
    var parent' := parent[rootB := rootA];
    var level' := LinkLevel(level, rootA, rootB);
    var bound' := LinkBound(level, bound, rootA, rootB);
    var before := Roots(parent, level, bound, boxes);
    var after := Roots(parent', level', bound', boxes);
    forall r | r in after ensures r in before && r != rootB {
      var c :| c in boxes && RootOf(parent', level', bound', c) == r;
      LinkRoots(parent, level, bound, rootA, rootB, c);
      assert RootOf(parent, level, bound, c) in before;
    }
    forall r | r in before && r != rootB ensures r in after {
      var c :| c in boxes && RootOf(parent, level, bound, c) == r;
      LinkRoots(parent, level, bound, rootA, rootB, c);
      assert RootOf(parent', level', bound', c) == r;
    }
    assert after == before - {rootB};
  }

  /** One more box adds its root to the circuits. */
  lemma RootsAppend(parent: map<Coord, Coord>, level: map<Coord, nat>, bound: nat, boxes: seq<Coord>, c: Coord)
    requires IsForest(parent, level, bound)
    requires (forall b :: b in boxes ==> b in parent) && c in parent
    ensures forall b :: b in boxes + [c] ==> b in parent
    ensures Roots(parent, level, bound, boxes + [c]) == Roots(parent, level, bound, boxes) + {RootOf(parent, level, bound, c)}
  {
    assert forall b :: b in boxes + [c] <==> b in boxes || b == c;
  }

  /** Boxes that are all the same one have at most one circuit. */
  lemma OneBoxOneCircuit(parent: map<Coord, Coord>, level: map<Coord, nat>, bound: nat, boxes: seq<Coord>)
    requires IsForest(parent, level, bound)
    requires forall c :: c in boxes ==> c in parent
    requires forall i, j :: 0 <= i < |boxes| && 0 <= j < |boxes| ==> boxes[i] == boxes[j]
    ensures |Roots(parent, level, bound, boxes)| <= 1
  {
    if |boxes| > 0 {
      var roots := Roots(parent, level, bound, boxes);
      assert roots == {RootOf(parent, level, bound, boxes[0])} by {
        forall r | r in roots ensures r == RootOf(parent, level, bound, boxes[0]) {
          var c :| c in boxes && RootOf(parent, level, bound, c) == r;
        }
      }
    } else {
      assert Roots(parent, level, bound, boxes) == {};
    }
  }

  // ---------------------------------------------------------------------------------
  // Pair enumeration

  /** The boxes at each index pair. */
  function BoxPairs(boxes: seq<Coord>, indices: seq<(nat, nat)>): (r: seq<(Coord, Coord)>)
    requires forall k :: 0 <= k < |indices| ==> indices[k].0 < |boxes| && indices[k].1 < |boxes|
    ensures |r| == |indices|
    ensures forall k :: 0 <= k < |r| ==> r[k] == (boxes[indices[k].0], boxes[indices[k].1])
  {
    if indices == [] then [] else [(boxes[indices[0].0], boxes[indices[0].1])] + BoxPairs(boxes, indices[1..])
  }

  lemma BoxPairsAppend(boxes: seq<Coord>, x: seq<(nat, nat)>, y: seq<(nat, nat)>)
    requires forall k :: 0 <= k < |x| ==> x[k].0 < |boxes| && x[k].1 < |boxes|
    requires forall k :: 0 <= k < |y| ==> y[k].0 < |boxes| && y[k].1 < |boxes|
    ensures BoxPairs(boxes, x + y) == BoxPairs(boxes, x) + BoxPairs(boxes, y)
  {
    assert forall k :: 0 <= k < |x + y| ==> (x + y)[k] == if k < |x| then x[k] else y[k - |x|];
  }

  /** The unsorted pairs of boxes, one per index pair i < j. */
  function Pairs(boxes: seq<Coord>): seq<(Coord, Coord)>
  {
    BoxPairs(boxes, IndexPairs(|boxes|))
  }

  /** The boxes at indices i < j are an enumerated pair. */
  lemma PairOfIndices(boxes: seq<Coord>, i: nat, j: nat)
    requires i < j < |boxes|
    ensures (boxes[i], boxes[j]) in Pairs(boxes)
  {
    var indices := IndexPairs(|boxes|);
    IndexPairsMembership(|boxes|);
    assert (i, j) in indices;
    var k :| 0 <= k < |indices| && indices[k] == (i, j);
    assert Pairs(boxes)[k] == (boxes[i], boxes[j]);
  }

  /** Every enumerated pair is the boxes at some indices i < j. */
  lemma IndicesOfPair(boxes: seq<Coord>, k: nat)
    requires k < |Pairs(boxes)|
    ensures exists i, j :: 0 <= i < j < |boxes| && Pairs(boxes)[k] == (boxes[i], boxes[j])
  {
    var indices := IndexPairs(|boxes|);
    IndexPairsMembership(|boxes|);
    assert indices[k] in indices;
    var (i, j) := indices[k];
    assert Pairs(boxes)[k] == (boxes[i], boxes[j]);
  }

  /** A pair of boxes is enumerated exactly when it is the boxes at some i < j. */
  lemma PairsMembership(boxes: seq<Coord>, p: (Coord, Coord))
    ensures p in Pairs(boxes) <==> exists i, j :: 0 <= i < j < |boxes| && p == (boxes[i], boxes[j])
  {
    if p in Pairs(boxes) {
      var k :| 0 <= k < |Pairs(boxes)| && Pairs(boxes)[k] == p;
      IndicesOfPair(boxes, k);
    }
    if exists i, j :: 0 <= i < j < |boxes| && p == (boxes[i], boxes[j]) {
      var i, j :| 0 <= i < j < |boxes| && p == (boxes[i], boxes[j]);
      PairOfIndices(boxes, i, j);
    }
  }

  /** One step along a row: the pair (i, j) moves from the pairs still to come to those enumerated. */
  lemma RowPairsStep(boxes: seq<Coord>, i: nat, j: nat, done: seq<(Coord, Coord)>)
    requires i < |boxes| && j < |boxes|
    ensures done + BoxPairs(boxes, RowPairs(i, j, |boxes|))
      == (done + [(boxes[i], boxes[j])]) + BoxPairs(boxes, RowPairs(i, j + 1, |boxes|))
  {
    assert RowPairs(i, j, |boxes|) == [(i, j)] + RowPairs(i, j + 1, |boxes|);
  }

  /** The inner loop: the pairs of box i with every later box. */
  method EnumerateRow(junctionBoxCoordinates: seq<Coord>, currentCoordinateIndex: nat, unsortedPairs: seq<(Coord, Coord)>)
    returns (extended: seq<(Coord, Coord)>)
    requires currentCoordinateIndex < |junctionBoxCoordinates|
    ensures extended == unsortedPairs
      + BoxPairs(junctionBoxCoordinates, RowPairs(currentCoordinateIndex, currentCoordinateIndex + 1, |junctionBoxCoordinates|))
  {
    ghost var target := unsortedPairs
      + BoxPairs(junctionBoxCoordinates, RowPairs(currentCoordinateIndex, currentCoordinateIndex + 1, |junctionBoxCoordinates|));
    extended := unsortedPairs;
    var nextCoordinateIndex := currentCoordinateIndex + 1;
    while nextCoordinateIndex < |junctionBoxCoordinates|
      invariant currentCoordinateIndex + 1 <= nextCoordinateIndex <= |junctionBoxCoordinates|
      invariant extended + BoxPairs(junctionBoxCoordinates, RowPairs(currentCoordinateIndex, nextCoordinateIndex, |junctionBoxCoordinates|))
        == target
      decreases |junctionBoxCoordinates| - nextCoordinateIndex
    {
      var pairA := junctionBoxCoordinates[currentCoordinateIndex];
      var pairB := junctionBoxCoordinates[nextCoordinateIndex];
      RowPairsStep(junctionBoxCoordinates, currentCoordinateIndex, nextCoordinateIndex, extended);
      extended := extended + [(pairA, pairB)];
      nextCoordinateIndex := nextCoordinateIndex + 1;
    }
    assert RowPairs(currentCoordinateIndex, nextCoordinateIndex, |junctionBoxCoordinates|) == [];
  }

  /** One step of the outer loop: row i moves from the pairs still to come to those enumerated. */
  lemma PairsFromStep(boxes: seq<Coord>, i: nat, done: seq<(Coord, Coord)>)
    requires i < |boxes|
    ensures done + BoxPairs(boxes, PairsFrom(i, |boxes|))
      == (done + BoxPairs(boxes, RowPairs(i, i + 1, |boxes|))) + BoxPairs(boxes, PairsFrom(i + 1, |boxes|))
  {
    assert PairsFrom(i, |boxes|) == RowPairs(i, i + 1, |boxes|) + PairsFrom(i + 1, |boxes|);
    BoxPairsAppend(boxes, RowPairs(i, i + 1, |boxes|), PairsFrom(i + 1, |boxes|));
    AppendAssociates(done, BoxPairs(boxes, RowPairs(i, i + 1, |boxes|)), BoxPairs(boxes, PairsFrom(i + 1, |boxes|)));
  }

  /** `sortJunctionBoxCoordinatePairsByAscDistance` before its sort: the nested loops. */
  method EnumeratePairs(junctionBoxCoordinates: seq<Coord>) returns (unsortedPairs: seq<(Coord, Coord)>)
    ensures unsortedPairs == Pairs(junctionBoxCoordinates)
  {
    unsortedPairs := [];
    var currentCoordinateIndex := 0;
    while currentCoordinateIndex < |junctionBoxCoordinates|
      invariant currentCoordinateIndex <= |junctionBoxCoordinates|
      invariant unsortedPairs + BoxPairs(junctionBoxCoordinates, PairsFrom(currentCoordinateIndex, |junctionBoxCoordinates|))
        == Pairs(junctionBoxCoordinates)
      decreases |junctionBoxCoordinates| - currentCoordinateIndex
    {
      PairsFromStep(junctionBoxCoordinates, currentCoordinateIndex, unsortedPairs);
      unsortedPairs := EnumerateRow(junctionBoxCoordinates, currentCoordinateIndex, unsortedPairs);
      currentCoordinateIndex := currentCoordinateIndex + 1;
    }
    assert PairsFrom(currentCoordinateIndex, |junctionBoxCoordinates|) == [];
  }

  // ---------------------------------------------------------------------------------
  // Circuits as labels: what joining the sorted pairs does, without the parent map

  /** Every box carries a label naming the circuit it is part of. */
  predicate Labelled(circuit: map<Coord, Coord>, boxes: seq<Coord>)
  {
    forall c :: c in boxes ==> c in circuit
  }

  /** Both boxes of every pair are among the boxes. */
  predicate PairsAmong(pairs: seq<(Coord, Coord)>, boxes: seq<Coord>)
  {
    forall k :: 0 <= k < |pairs| ==> pairs[k].0 in boxes && pairs[k].1 in boxes
  }

  /** Joining a and b: every box of b's circuit moves to a's circuit. */
  function Connect(circuit: map<Coord, Coord>, a: Coord, b: Coord): (r: map<Coord, Coord>)
    requires a in circuit && b in circuit
    ensures r.Keys == circuit.Keys
    ensures r[a] == r[b]
  {
    if circuit[a] == circuit[b] then circuit
    else map c | c in circuit :: if circuit[c] == circuit[b] then circuit[a] else circuit[c]
  }

  /** Boxes that share a circuit still share one after a join. */
  lemma ConnectKeepsJoined(circuit: map<Coord, Coord>, a: Coord, b: Coord, x: Coord, y: Coord)
    requires a in circuit && b in circuit && x in circuit && y in circuit
    requires circuit[x] == circuit[y]
    ensures Connect(circuit, a, b)[x] == Connect(circuit, a, b)[y]
  {
  }

  /** The circuits of the boxes. */
  function Labels(circuit: map<Coord, Coord>, boxes: seq<Coord>): set<Coord>
    requires Labelled(circuit, boxes)
  {
    set c | c in boxes :: circuit[c]
  }

  /** The labels once every pair has been joined in order. */
  function ConnectAll(circuit: map<Coord, Coord>, boxes: seq<Coord>, pairs: seq<(Coord, Coord)>): (r: map<Coord, Coord>)
    requires Labelled(circuit, boxes) && PairsAmong(pairs, boxes)
    ensures r.Keys == circuit.Keys
    decreases |pairs|
  {
    if pairs == [] then circuit else ConnectAll(Connect(circuit, pairs[0].0, pairs[0].1), boxes, pairs[1..])
  }

  /**
    What the main loop prints: for each pair in order, the product of the X coordinates
    when the join merges two circuits and one circuit is left afterwards.
   */
  function PrintedFrom(circuit: map<Coord, Coord>, boxes: seq<Coord>, pairs: seq<(Coord, Coord)>): seq<int>
    requires Labelled(circuit, boxes) && PairsAmong(pairs, boxes)
    decreases |pairs|
  {
    if pairs == [] then []
    else
      PrintedBy(circuit, boxes, pairs[0].0, pairs[0].1)
        + PrintedFrom(Connect(circuit, pairs[0].0, pairs[0].1), boxes, pairs[1..])
  }

  /** What joining a and b prints: the product of their X coordinates when it leaves one circuit. */
  function PrintedBy(circuit: map<Coord, Coord>, boxes: seq<Coord>, a: Coord, b: Coord): seq<int>
    requires Labelled(circuit, boxes) && a in circuit && b in circuit
  {
    if circuit[a] != circuit[b] && |Labels(Connect(circuit, a, b), boxes)| == 1 then [a.0 * b.0] else []
  }

  /** At the start every box is its own circuit. */
  function InitialLabels(boxes: seq<Coord>): (circuit: map<Coord, Coord>)
    ensures Labelled(circuit, boxes)
    ensures Labels(circuit, boxes) == set c | c in boxes
  {
    map c | c in boxes :: c
  }

  /** A join that merges removes exactly one circuit, and needs two to merge. */
  lemma ConnectCount(circuit: map<Coord, Coord>, boxes: seq<Coord>, a: Coord, b: Coord)
    requires Labelled(circuit, boxes) && a in boxes && b in boxes
    ensures |Labels(Connect(circuit, a, b), boxes)|
        == if circuit[a] != circuit[b] then |Labels(circuit, boxes)| - 1 else |Labels(circuit, boxes)|
    ensures circuit[a] != circuit[b] ==> |Labels(circuit, boxes)| >= 2
  {
    if circuit[a] != circuit[b] {
      var before := Labels(circuit, boxes);
      var after := Labels(Connect(circuit, a, b), boxes);
      assert after == before - {circuit[b]} by {
        forall r | r in after ensures r in before - {circuit[b]} {
          var c :| c in boxes && Connect(circuit, a, b)[c] == r;
        }
        forall r | r in before - {circuit[b]} ensures r in after {
          var c :| c in boxes && circuit[c] == r;
          if r == circuit[a] {
            assert Connect(circuit, a, b)[a] == r;
          } else {
            assert Connect(circuit, a, b)[c] == r;
          }
        }
      }
      assert {circuit[a], circuit[b]} <= before;
      assert |{circuit[a], circuit[b]}| == 2;
    }
  }

  /** Boxes that share a circuit keep sharing one through later joins. */
  lemma {:induction false} ConnectAllKeepsJoined(circuit: map<Coord, Coord>, boxes: seq<Coord>, pairs: seq<(Coord, Coord)>, x: Coord, y: Coord)
    requires Labelled(circuit, boxes) && PairsAmong(pairs, boxes)
    requires x in circuit && y in circuit && circuit[x] == circuit[y]
    ensures ConnectAll(circuit, boxes, pairs)[x] == ConnectAll(circuit, boxes, pairs)[y]
    decreases |pairs|
  {
    if pairs != [] {
      ConnectKeepsJoined(circuit, pairs[0].0, pairs[0].1, x, y);
      ConnectAllKeepsJoined(Connect(circuit, pairs[0].0, pairs[0].1), boxes, pairs[1..], x, y);
    }
  }

  /** Once every pair has been joined, the two boxes of each pair share a circuit. */
  lemma {:induction false} ConnectAllJoinsEvery(circuit: map<Coord, Coord>, boxes: seq<Coord>, pairs: seq<(Coord, Coord)>, k: nat)
    requires Labelled(circuit, boxes) && PairsAmong(pairs, boxes)
    requires k < |pairs|
    ensures ConnectAll(circuit, boxes, pairs)[pairs[k].0] == ConnectAll(circuit, boxes, pairs)[pairs[k].1]
    decreases |pairs|
  {
    var next := Connect(circuit, pairs[0].0, pairs[0].1);
    if k == 0 {
      ConnectAllKeepsJoined(next, boxes, pairs[1..], pairs[0].0, pairs[0].1);
    } else {
      ConnectAllJoinsEvery(next, boxes, pairs[1..], k - 1);
    }
  }

  /** With at most one circuit no join merges, so nothing more is printed. */
  lemma {:induction false} NothingPrintedWithOneCircuit(circuit: map<Coord, Coord>, boxes: seq<Coord>, pairs: seq<(Coord, Coord)>)
    requires Labelled(circuit, boxes) && PairsAmong(pairs, boxes)
    requires |Labels(circuit, boxes)| <= 1
    ensures PrintedFrom(circuit, boxes, pairs) == []
    decreases |pairs|
  {
    if pairs != [] {
      ConnectCount(circuit, boxes, pairs[0].0, pairs[0].1);
      NothingPrintedWithOneCircuit(Connect(circuit, pairs[0].0, pairs[0].1), boxes, pairs[1..]);
    }
  }

  /** The product is printed at most once. */
  lemma {:induction false} PrintedAtMostOnce(circuit: map<Coord, Coord>, boxes: seq<Coord>, pairs: seq<(Coord, Coord)>)
    requires Labelled(circuit, boxes) && PairsAmong(pairs, boxes)
    ensures |PrintedFrom(circuit, boxes, pairs)| <= 1
    decreases |pairs|
  {
    if pairs != [] {
      var a, b := pairs[0].0, pairs[0].1;
      var next := Connect(circuit, a, b);
      if circuit[a] != circuit[b] && |Labels(next, boxes)| == 1 {
        NothingPrintedWithOneCircuit(next, boxes, pairs[1..]);
      } else {
        PrintedAtMostOnce(next, boxes, pairs[1..]);
      }
    }
  }

  /**
    Going from two or more circuits down to at most one, some join leaves exactly one
    circuit, and that is when the product is printed.
   */
  lemma {:induction false} PrintedWhenJoined(circuit: map<Coord, Coord>, boxes: seq<Coord>, pairs: seq<(Coord, Coord)>)
    requires Labelled(circuit, boxes) && PairsAmong(pairs, boxes)
    requires |Labels(circuit, boxes)| >= 2 && |Labels(ConnectAll(circuit, boxes, pairs), boxes)| <= 1
    ensures |PrintedFrom(circuit, boxes, pairs)| >= 1
    decreases |pairs|
  {
    var a, b := pairs[0].0, pairs[0].1;
    ConnectCount(circuit, boxes, a, b);
    if !(circuit[a] != circuit[b] && |Labels(Connect(circuit, a, b), boxes)| == 1) {
      PrintedWhenJoined(Connect(circuit, a, b), boxes, pairs[1..]);
    }
  }

  /**
    `findRoot`: follows parents until a key is its own parent. A key that is missing makes
    `map.get` undefined and the loop throws (None).
   */
  method FindRoot(coordinate: Coord, unions: map<Coord, Coord>, ghost level: map<Coord, nat>, ghost bound: nat)
    returns (root: Option<Coord>)
    requires IsForest(unions, level, bound)
    ensures root.None? <==> coordinate !in unions
    ensures root.Some? ==> root.value == RootOf(unions, level, bound, coordinate)
  {
    var mapKey := coordinate;
    while !(mapKey in unions && unions[mapKey] == mapKey)
      invariant mapKey !in unions ==> mapKey == coordinate
      invariant mapKey in unions ==>
        coordinate in unions && RootOf(unions, level, bound, mapKey) == RootOf(unions, level, bound, coordinate)
      decreases if mapKey in unions then bound - level[mapKey] else 0
    {
      if mapKey !in unions {
        return None;
      }
      mapKey := unions[mapKey];
    }
    return Some(mapKey);
  }

  // ---------------------------------------------------------------------------------
  // The union-find over the module-level map

  /** Every box of the sequence as its own parent. */
  function SelfParents(boxes: seq<Coord>): (m: map<Coord, Coord>)
    ensures forall c :: c in m <==> c in boxes
    ensures forall c :: c in m ==> m[c] == c
  {
    map c | c in boxes :: c
  }

  /** Making the next box its own parent extends the boxes made their own parents. */
  lemma SelfParentsAppend(start: map<Coord, Coord>, boxes: seq<Coord>, i: nat)
    requires i < |boxes|
    ensures (start + SelfParents(boxes[..i]))[boxes[i] := boxes[i]] == start + SelfParents(boxes[..i + 1])
  {
    assert boxes[..i + 1] == boxes[..i] + [boxes[i]];
  }

  class UnionFind {
    const junctionBoxCoordinates: seq<Coord>
    var unions: map<Coord, Coord>
    ghost var level: map<Coord, nat>
    ghost var bound: nat

    ghost predicate Valid()
      reads this
    {
      IsForest(unions, level, bound)
    }

    /** `new Map()`: no box has a parent yet. */
    constructor (junctionBoxCoordinates: seq<Coord>)
      ensures Valid()
      ensures this.junctionBoxCoordinates == junctionBoxCoordinates && unions == map[]
    {
      this.junctionBoxCoordinates := junctionBoxCoordinates;
      unions := map[];
      level := map[];
      bound := 0;
    }

    /** One step of `initializeUnions`: the box becomes its own parent. */
    method MakeRoot(mapSafeValue: Coord)
      requires Valid()
      modifies this
      ensures Valid()
      ensures unions == old(unions)[mapSafeValue := mapSafeValue]
    {
      MakeRootKeepsForest(unions, level, bound, mapSafeValue);
      level, unions := level[mapSafeValue := if mapSafeValue in unions then level[mapSafeValue] else 0], unions[mapSafeValue := mapSafeValue];
      assert IsForest(unions, level, bound);
    }

    /** `initializeUnions`: every box becomes its own parent; other keys keep theirs. */
    method InitializeUnions()
      requires Valid()
      modifies this
      ensures Valid()
      ensures forall c :: c in unions <==> c in old(unions) || c in junctionBoxCoordinates
      ensures forall c :: c in junctionBoxCoordinates ==> unions[c] == c
      ensures forall c :: c in old(unions) && c !in junctionBoxCoordinates ==> unions[c] == old(unions)[c]
    {
      for i := 0 to |junctionBoxCoordinates|
        invariant Valid()
        invariant unions == old(unions) + SelfParents(junctionBoxCoordinates[..i])
      {
        SelfParentsAppend(old(unions), junctionBoxCoordinates, i);
        MakeRoot(junctionBoxCoordinates[i]);
      }
      assert junctionBoxCoordinates[..|junctionBoxCoordinates|] == junctionBoxCoordinates;
    }

    /**
      `union`: with different roots, rootB's parent becomes rootA and the result is true;
      with one root nothing changes and the result is false. A missing box throws (None),
      before anything changes.
     */
    method Union(coordinateA: Coord, coordinateB: Coord) returns (merged: Option<bool>)
      requires Valid()
      modifies this
      ensures Valid()
      ensures merged.None? <==> coordinateA !in old(unions) || coordinateB !in old(unions)
      ensures merged != Some(true) ==> unions == old(unions)
      ensures merged.Some? ==>
        var rootA := RootOf(old(unions), old(level), old(bound), coordinateA);
        var rootB := RootOf(old(unions), old(level), old(bound), coordinateB);
        (merged.value <==> rootA != rootB)
        && (merged.value ==>
              unions == old(unions)[rootB := rootA]
              && level == LinkLevel(old(level), rootA, rootB)
              && bound == LinkBound(old(level), old(bound), rootA, rootB))
      ensures merged != Some(true) ==> level == old(level) && bound == old(bound)
      ensures merged.Some? ==>
        coordinateA in unions && coordinateB in unions
        && RootOf(unions, level, bound, coordinateA) == RootOf(unions, level, bound, coordinateB)
    {
      var rootA := FindRoot(coordinateA, unions, level, bound);
      var rootB := FindRoot(coordinateB, unions, level, bound);
      if rootA.None? || rootB.None? {
        return None;
      }
      if rootA.value == rootB.value {
        return Some(false);
      }
      LinkRoots(unions, level, bound, rootA.value, rootB.value, coordinateA);
      LinkRoots(unions, level, bound, rootA.value, rootB.value, coordinateB);
      bound := LinkBound(level, bound, rootA.value, rootB.value);
      level := LinkLevel(level, rootA.value, rootB.value);
      unions := unions[rootB.value := rootA.value];
      assert IsForest(unions, level, bound);
      return Some(true);
    }

    /** `countUniqueCircuits`: the number of distinct roots of the boxes. */
    method CountUniqueCircuits() returns (count: Option<nat>)
      requires Valid()
      ensures count.None? <==> exists c :: c in junctionBoxCoordinates && c !in unions
      ensures count.Some? ==>
        (forall c :: c in junctionBoxCoordinates ==> c in unions)
        && count.value == |Roots(unions, level, bound, junctionBoxCoordinates)|
    {
      var uniqueRoots: set<Coord> := {};
      for i := 0 to |junctionBoxCoordinates|
        invariant forall c :: c in junctionBoxCoordinates[..i] ==> c in unions
        invariant uniqueRoots == Roots(unions, level, bound, junctionBoxCoordinates[..i])
      {
        var coordinate := junctionBoxCoordinates[i];
        assert junctionBoxCoordinates[..i + 1] == junctionBoxCoordinates[..i] + [coordinate];
        var root := FindRoot(coordinate, unions, level, bound);
        if root.None? {
          return None;
        }
        RootsAppend(unions, level, bound, junctionBoxCoordinates[..i], coordinate);
        uniqueRoots := uniqueRoots + {root.value};
      }
      assert junctionBoxCoordinates[..|junctionBoxCoordinates|] == junctionBoxCoordinates;
      return Some(|uniqueRoots|);
    }
  }

  /** The circuits the labels give are the distinct roots of the parent map. */
  lemma RootsMatchLabels(parent: map<Coord, Coord>, level: map<Coord, nat>, bound: nat, circuit: map<Coord, Coord>, boxes: seq<Coord>)
    requires IsForest(parent, level, bound) && (forall c :: c in boxes ==> c in parent) && Labelled(circuit, boxes)
    requires forall c :: c in boxes ==> RootOf(parent, level, bound, c) == circuit[c]
    ensures Roots(parent, level, bound, boxes) == Labels(circuit, boxes)
  {
  }

  /** Pointing rootB at rootA does to the roots what joining does to the labels. */
  lemma LinkMatchesConnect(parent: map<Coord, Coord>, level: map<Coord, nat>, bound: nat, circuit: map<Coord, Coord>,
                           boxes: seq<Coord>, a: Coord, b: Coord)
    requires IsForest(parent, level, bound) && (forall c :: c in boxes ==> c in parent) && Labelled(circuit, boxes)
    requires forall c :: c in boxes ==> RootOf(parent, level, bound, c) == circuit[c]
    requires a in boxes && b in boxes && circuit[a] != circuit[b]
    ensures circuit[a] in parent && circuit[b] in parent
    ensures IsForest(parent[circuit[b] := circuit[a]], LinkLevel(level, circuit[a], circuit[b]), LinkBound(level, bound, circuit[a], circuit[b]))
    ensures forall c :: c in boxes ==>
      RootOf(parent[circuit[b] := circuit[a]], LinkLevel(level, circuit[a], circuit[b]), LinkBound(level, bound, circuit[a], circuit[b]), c)
        == Connect(circuit, a, b)[c]
  {
    assert RootOf(parent, level, bound, a) == circuit[a] && RootOf(parent, level, bound, b) == circuit[b];
    LinkKeepsForest(parent, level, bound, circuit[a], circuit[b]);
    forall c | c in boxes
      ensures RootOf(parent[circuit[b] := circuit[a]], LinkLevel(level, circuit[a], circuit[b]), LinkBound(level, bound, circuit[a], circuit[b]), c)
        == Connect(circuit, a, b)[c]
    {
      LinkRoots(parent, level, bound, circuit[a], circuit[b], c);
    }
  }

  /** Every enumerated pair, in whatever order the sort leaves them, is a pair of boxes. */
  lemma SortedPairsAmong(boxes: seq<Coord>, sortedPairs: seq<(Coord, Coord)>)
    requires multiset(sortedPairs) == multiset(Pairs(boxes))
    ensures PairsAmong(sortedPairs, boxes)
  {
    forall k | 0 <= k < |sortedPairs| ensures sortedPairs[k].0 in boxes && sortedPairs[k].1 in boxes {
      assert sortedPairs[k] in multiset(Pairs(boxes));
      PairsMembership(boxes, sortedPairs[k]);
    }
  }

  /** With every pair joined, all boxes end in one circuit. */
  lemma AllPairsConnectAll(circuit: map<Coord, Coord>, boxes: seq<Coord>, sortedPairs: seq<(Coord, Coord)>)
    requires Labelled(circuit, boxes) && PairsAmong(sortedPairs, boxes)
    requires multiset(sortedPairs) == multiset(Pairs(boxes))
    ensures |Labels(ConnectAll(circuit, boxes, sortedPairs), boxes)| <= 1
  {
    if |boxes| > 0 {
      var final := ConnectAll(circuit, boxes, sortedPairs);
      forall c | c in boxes ensures final[c] == final[boxes[0]] {
        var j :| 0 <= j < |boxes| && boxes[j] == c;
        if j > 0 {
          PairsMembership(boxes, (boxes[0], boxes[j]));
          assert (boxes[0], boxes[j]) in multiset(sortedPairs);
          var k :| 0 <= k < |sortedPairs| && sortedPairs[k] == (boxes[0], boxes[j]);
          ConnectAllJoinsEvery(circuit, boxes, sortedPairs, k);
        }
      }
      assert Labels(final, boxes) == {final[boxes[0]]};
    } else {
      assert Labels(ConnectAll(circuit, boxes, sortedPairs), boxes) == {};
    }
  }

  /**
    The main loop prints exactly once when there are at least two distinct boxes, and
    never otherwise.
   */
  lemma PrintedIffSeveralBoxes(boxes: seq<Coord>, sortedPairs: seq<(Coord, Coord)>)
    requires multiset(sortedPairs) == multiset(Pairs(boxes))
    ensures PairsAmong(sortedPairs, boxes)
    ensures |PrintedFrom(InitialLabels(boxes), boxes, sortedPairs)| <= 1
    ensures |PrintedFrom(InitialLabels(boxes), boxes, sortedPairs)| == 1 <==> |set c | c in boxes| >= 2
  {
    SortedPairsAmong(boxes, sortedPairs);
    var start := InitialLabels(boxes);
    PrintedAtMostOnce(start, boxes, sortedPairs);
    if |set c | c in boxes| >= 2 {
      AllPairsConnectAll(start, boxes, sortedPairs);
      PrintedWhenJoined(start, boxes, sortedPairs);
    } else {
      NothingPrintedWithOneCircuit(start, boxes, sortedPairs);
    }
  }

  lemma PairsAmongSuffix(pairs: seq<(Coord, Coord)>, boxes: seq<Coord>, i: nat)
    requires PairsAmong(pairs, boxes) && i <= |pairs|
    ensures PairsAmong(pairs[i..], boxes)
  {
    assert forall k :: 0 <= k < |pairs| - i ==> pairs[i..][k] == pairs[i + k];
  }

  /** Unfolding what is printed from the i-th pair on. */
  lemma PrintedFromStep(circuit: map<Coord, Coord>, boxes: seq<Coord>, pairs: seq<(Coord, Coord)>, i: nat)
    requires Labelled(circuit, boxes) && PairsAmong(pairs, boxes) && i < |pairs|
    ensures PrintedFrom(circuit, boxes, pairs[i..])
      == PrintedBy(circuit, boxes, pairs[i].0, pairs[i].1) + PrintedFrom(Connect(circuit, pairs[i].0, pairs[i].1), boxes, pairs[i + 1..])
  {
    assert pairs[i..][1..] == pairs[i + 1..];
  }

  /** The parent map is a forest holding every box, and each box's root is its label. */
  predicate Tracks(parent: map<Coord, Coord>, level: map<Coord, nat>, bound: nat, circuit: map<Coord, Coord>, boxes: seq<Coord>)
  {
    IsForest(parent, level, bound) && (forall c :: c in boxes ==> c in parent) && Labelled(circuit, boxes)
    && (forall c :: c in boxes ==> RootOf(parent, level, bound, c) == circuit[c])
  }

  /**
    One turn of the main loop: `union`, then `countUniqueCircuits` when it returned true,
    and the product when one circuit is left.
   */
  method ConnectPair(unionFind: UnionFind, ghost circuit: map<Coord, Coord>, pairA: Coord, pairB: Coord)
    returns (printedNow: seq<int>)
    requires unionFind.Valid()
    requires Tracks(unionFind.unions, unionFind.level, unionFind.bound, circuit, unionFind.junctionBoxCoordinates)
    requires pairA in unionFind.junctionBoxCoordinates && pairB in unionFind.junctionBoxCoordinates
    modifies unionFind
    ensures unionFind.Valid()
    ensures Labelled(Connect(circuit, pairA, pairB), unionFind.junctionBoxCoordinates)
    ensures Tracks(unionFind.unions, unionFind.level, unionFind.bound, Connect(circuit, pairA, pairB), unionFind.junctionBoxCoordinates)
    ensures printedNow == PrintedBy(circuit, unionFind.junctionBoxCoordinates, pairA, pairB)
  {
    var boxes := unionFind.junctionBoxCoordinates;
    if circuit[pairA] != circuit[pairB] {
      LinkMatchesConnect(unionFind.unions, unionFind.level, unionFind.bound, circuit, boxes, pairA, pairB);
    }
    ghost var joined := Connect(circuit, pairA, pairB);
    assert RootOf(unionFind.unions, unionFind.level, unionFind.bound, pairA) == circuit[pairA];
    assert RootOf(unionFind.unions, unionFind.level, unionFind.bound, pairB) == circuit[pairB];
    var merged := unionFind.Union(pairA, pairB);
    printedNow := [];
    if merged == Some(true) {
      assert circuit[pairA] != circuit[pairB];
      var count := unionFind.CountUniqueCircuits();
      RootsMatchLabels(unionFind.unions, unionFind.level, unionFind.bound, joined, boxes);
      assert count == Some(|Labels(joined, boxes)|);
      if count == Some(1) {
        printedNow := [pairA.0 * pairB.0];
        assert printedNow == PrintedBy(circuit, boxes, pairA, pairB);
      } else {
        assert |Labels(joined, boxes)| != 1;
        assert printedNow == PrintedBy(circuit, boxes, pairA, pairB);
      }
    } else {
      assert circuit[pairA] == circuit[pairB] && joined == circuit;
      assert printedNow == PrintedBy(circuit, boxes, pairA, pairB);
    }
  }

  /** The loop of the main program over the pairs, from a union-find that matches the labels. */
  method ConnectAllPairs(unionFind: UnionFind, ghost circuit: map<Coord, Coord>, sortedPairs: seq<(Coord, Coord)>)
    returns (printed: seq<int>)
    requires unionFind.Valid()
    requires Tracks(unionFind.unions, unionFind.level, unionFind.bound, circuit, unionFind.junctionBoxCoordinates)
    requires PairsAmong(sortedPairs, unionFind.junctionBoxCoordinates)
    modifies unionFind
    ensures printed == PrintedFrom(circuit, unionFind.junctionBoxCoordinates, sortedPairs)
  {
    var boxes := unionFind.junctionBoxCoordinates;
    ghost var current := circuit;
    ghost var target := PrintedFrom(circuit, boxes, sortedPairs);
    printed := [];
    assert sortedPairs[0..] == sortedPairs;
    for i := 0 to |sortedPairs|
      invariant unionFind.Valid()
      invariant Tracks(unionFind.unions, unionFind.level, unionFind.bound, current, boxes)
      invariant PairsAmong(sortedPairs[i..], boxes)
      invariant printed + PrintedFrom(current, boxes, sortedPairs[i..]) == target
    {
      var pairA := sortedPairs[i].0;
      var pairB := sortedPairs[i].1;
      var printedNow := ConnectPair(unionFind, current, pairA, pairB);
      PrintedStep(printed, printedNow, current, boxes, sortedPairs, i, pairA, pairB);
      printed := printed + printedNow;
      current := Connect(current, pairA, pairB);
    }
    PairsAmongSuffix(sortedPairs, boxes, |sortedPairs|);
    PrintedFromEnd(printed, current, boxes, sortedPairs);
  }

  /** What one turn of the main loop prints moves from what is still to come to what has been printed. */
  lemma PrintedStep(printed: seq<int>, printedNow: seq<int>, circuit: map<Coord, Coord>, boxes: seq<Coord>,
                    pairs: seq<(Coord, Coord)>, i: nat, a: Coord, b: Coord)
    requires Labelled(circuit, boxes) && PairsAmong(pairs, boxes) && i < |pairs| && pairs[i] == (a, b)
    requires printedNow == PrintedBy(circuit, boxes, a, b)
    ensures PairsAmong(pairs[i + 1..], boxes) && Labelled(Connect(circuit, a, b), boxes)
    ensures printed + PrintedFrom(circuit, boxes, pairs[i..]) == (printed + printedNow) + PrintedFrom(Connect(circuit, a, b), boxes, pairs[i + 1..])
  {
    PrintedFromStep(circuit, boxes, pairs, i);
    PairsAmongSuffix(pairs, boxes, i + 1);
    ConnectLabelled(circuit, boxes, a, b);
    AppendAssociates(printed, printedNow, PrintedFrom(Connect(circuit, a, b), boxes, pairs[i + 1..]));
  }

  /** A join keeps every box labelled. */
  lemma ConnectLabelled(circuit: map<Coord, Coord>, boxes: seq<Coord>, a: Coord, b: Coord)
    requires Labelled(circuit, boxes) && a in circuit && b in circuit
    ensures Labelled(Connect(circuit, a, b), boxes)
  {
  }

  /** Nothing is printed once the pairs run out. */
  lemma PrintedFromEnd(printed: seq<int>, circuit: map<Coord, Coord>, boxes: seq<Coord>, pairs: seq<(Coord, Coord)>)
    requires Labelled(circuit, boxes) && PairsAmong(pairs[|pairs|..], boxes)
    ensures printed + PrintedFrom(circuit, boxes, pairs[|pairs|..]) == printed
  {
    assert pairs[|pairs|..] == [];
  }

  /**
    The main program: `initializeUnions`, then the loop over the sorted pairs, where each
    `union` that returns true is followed by `countUniqueCircuits`, and the product of the
    X coordinates is printed when one circuit is left. The pairs arrive in the order of a
    sort of the enumerated pairs.
   */
  method ConnectCircuits(junctionBoxCoordinates: seq<Coord>, sortedPairs: seq<(Coord, Coord)>) returns (printed: seq<int>)
    requires multiset(sortedPairs) == multiset(Pairs(junctionBoxCoordinates))
    ensures PairsAmong(sortedPairs, junctionBoxCoordinates)
    ensures printed == PrintedFrom(InitialLabels(junctionBoxCoordinates), junctionBoxCoordinates, sortedPairs)
    ensures |printed| <= 1
    ensures |printed| == 1 <==> |set c | c in junctionBoxCoordinates| >= 2
  {
    PrintedIffSeveralBoxes(junctionBoxCoordinates, sortedPairs);
    var unionFind := new UnionFind(junctionBoxCoordinates);
    unionFind.InitializeUnions();
    ghost var start := InitialLabels(junctionBoxCoordinates);
    assert forall c :: c in junctionBoxCoordinates ==>
      RootOf(unionFind.unions, unionFind.level, unionFind.bound, c) == start[c];
    printed := ConnectAllPairs(unionFind, start, sortedPairs);
  }
}
