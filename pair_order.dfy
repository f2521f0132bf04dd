/**
  The order in which two nested loops, the outer over i and the inner over j from i + 1,
  visit the index pairs of a list: every pair i < j, once, in ascending order.
 */
module PairOrder {
  /** The index pairs (i, j), (i, j + 1), ..., (i, n - 1), as the inner loop visits them. */
  function RowPairs(i: nat, j: nat, n: nat): (r: seq<(nat, nat)>)
    ensures forall k :: 0 <= k < |r| ==> r[k].0 == i && j <= r[k].1 < n
    decreases n - j
  {
    if j >= n then [] else [(i, j)] + RowPairs(i, j + 1, n)
  }

  /** The rows of index pairs for i, i + 1, ..., n - 1, as the outer loop visits them. */
  function PairsFrom(i: nat, n: nat): (r: seq<(nat, nat)>)
    ensures forall k :: 0 <= k < |r| ==> i <= r[k].0 < r[k].1 < n
    decreases n - i
  {
    if i >= n then [] else RowPairs(i, i + 1, n) + PairsFrom(i + 1, n)
  }

  function IndexPairs(n: nat): seq<(nat, nat)>
  {
    PairsFrom(0, n)
  }

  predicate LexLess(p: (nat, nat), q: (nat, nat))
  {
    p.0 < q.0 || (p.0 == q.0 && p.1 < q.1)
  }

  lemma {:induction false} RowPairsMembership(i: nat, j: nat, n: nat, p: (nat, nat))
    ensures p in RowPairs(i, j, n) <==> p.0 == i && j <= p.1 < n
    decreases n - j
  {
    if j < n {
      RowPairsMembership(i, j + 1, n, p);
    }
  }

  lemma {:induction false} RowPairsAscending(i: nat, j: nat, n: nat)
    ensures forall a, b :: 0 <= a < b < |RowPairs(i, j, n)| ==> RowPairs(i, j, n)[a].1 < RowPairs(i, j, n)[b].1
    decreases n - j
  {
    if j < n {
      RowPairsAscending(i, j + 1, n);
      var r := RowPairs(i, j, n);
      assert forall k :: 1 <= k < |r| ==> r[k] == RowPairs(i, j + 1, n)[k - 1];
    }
  }

  lemma {:induction false} PairsFromMembership(i: nat, n: nat, p: (nat, nat))
    ensures p in PairsFrom(i, n) <==> i <= p.0 < p.1 < n
    decreases n - i
  {
    if i < n {
      RowPairsMembership(i, i + 1, n, p);
      PairsFromMembership(i + 1, n, p);
    }
  }

  lemma {:induction false} PairsFromAscending(i: nat, n: nat)
    ensures forall a, b :: 0 <= a < b < |PairsFrom(i, n)| ==> LexLess(PairsFrom(i, n)[a], PairsFrom(i, n)[b])
    decreases n - i
  {
    if i < n {
      var row := RowPairs(i, i + 1, n);
      var rest := PairsFrom(i + 1, n);
      RowPairsAscending(i, i + 1, n);
      PairsFromAscending(i + 1, n);
      var r := PairsFrom(i, n);
      forall a, b | 0 <= a < b < |r| ensures LexLess(r[a], r[b]) {
        if b < |row| {
          assert r[a] == row[a] && r[b] == row[b];
        } else if a < |row| {
          assert r[a] == row[a] && r[b] == rest[b - |row|];
        } else {
          assert r[a] == rest[a - |row|] && r[b] == rest[b - |row|];
        }
      }
    }
  }

  lemma IndexPairsMembership(n: nat)
    ensures forall p :: p in IndexPairs(n) <==> p.0 < p.1 < n
  {
    forall p ensures p in IndexPairs(n) <==> p.0 < p.1 < n {
      PairsFromMembership(0, n, p);
    }
  }

  /**
    The nested loops visit exactly the index pairs i < j < n, in ascending order, so each
    of them exactly once.
   */
  lemma IndexPairsEnumeration(n: nat)
    ensures forall p :: p in IndexPairs(n) <==> p.0 < p.1 < n
    ensures forall a, b :: 0 <= a < b < |IndexPairs(n)| ==> LexLess(IndexPairs(n)[a], IndexPairs(n)[b])
    ensures forall a, b :: 0 <= a < b < |IndexPairs(n)| ==> IndexPairs(n)[a] != IndexPairs(n)[b]
  {
    IndexPairsMembership(n);
    PairsFromAscending(0, n);
  }

  lemma AppendAssociates<T>(a: seq<T>, b: seq<T>, c: seq<T>)
    ensures a + (b + c) == (a + b) + c
  {
  }
}
