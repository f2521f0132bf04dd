/**
  Day 2: product ids are checked range by range ("11-22,95-115"). Part one calls an id
  invalid when its decimal digits are one half written twice; part two when the digits
  are one pattern repeated, checked for each pattern length that divides the length by
  cutting the digits before every later occurrence of the pattern.
 */
module RepeatedIds {
  import opened JsText

  /**
    The bounds of one "lo-hi" range: `split("-")` and `Number` on the first two pieces.
    A missing or non-numeric bound is NaN or undefined, and `id <= NaN` is false, so
    such a range examines no id: it is written None here.
   */
  function RangeBounds(idRange: string): Option<(nat, nat)>
  {
    var pieces := Split(idRange, '-');
    if |pieces| < 2 then None
    else match (Number(pieces[0]), Number(pieces[1]))
      case (Some(lo), Some(hi)) => Some((lo, hi))
      case _ => None
  }

  /** Writing a range out and splitting it again gives back its bounds. */
  lemma RangeBoundsOfRange(lo: nat, hi: nat)
    ensures RangeBounds(DecimalString(lo) + "-" + DecimalString(hi)) == Some((lo, hi))
  {
    SplitDigitRuns(DecimalString(lo), DecimalString(hi), '-');
    NumberOfDecimalString(lo);
    NumberOfDecimalString(hi);
  }

  // ---------------------------------------------------------------------------------
  // Part one

  /** Part one: the digits have even length and the first half equals the second. */
  predicate IsRepeatedHalves(id: nat)
  {
    var s := DecimalString(id);
    |s| % 2 == 0 && s[..|s| / 2] == s[|s| / 2..]
  }

  /** An id is invalid in part one exactly when its digits are some string written twice. */
  lemma RepeatedHalvesIff(id: nat, p: string)
    ensures DecimalString(id) == p + p ==> IsRepeatedHalves(id)
    ensures IsRepeatedHalves(id) ==>
      var s := DecimalString(id); s == s[..|s| / 2] + s[..|s| / 2]
  {
    var s := DecimalString(id);
    if s == p + p {
      assert |s| / 2 == |p|;
      assert s[..|p|] == p && s[|p|..] == p;
    }
    if IsRepeatedHalves(id) {
      assert s == s[..|s| / 2] + s[|s| / 2..];
    }
  }

  /** An id with an odd number of digits is never invalid in part one. */
  lemma OddLengthIsValid(id: nat)
    requires |DecimalString(id)| % 2 == 1
    ensures !IsRepeatedHalves(id)
  {
  }

  /** The ids lo..hi that part one pushes, in the order the loop visits them. */
  function HalvesIn(lo: nat, hi: int): (r: seq<nat>)
    decreases hi - lo
  {
    if hi < lo then []
    else HalvesIn(lo, hi - 1) + (if IsRepeatedHalves(hi) then [hi] else [])
  }

  /** Only invalid ids of the range are pushed. */
  lemma {:induction false} HalvesInSound(lo: nat, hi: int, id: nat)
    requires id in HalvesIn(lo, hi)
    ensures lo <= id <= hi && IsRepeatedHalves(id)
    decreases hi - lo
  {
    if id !in HalvesIn(lo, hi - 1) {
      assert IsRepeatedHalves(hi) && id == hi;
    } else {
      HalvesInSound(lo, hi - 1, id);
    }
  }

  /** The pushed ids ascend, so no id of a range is pushed twice. */
  lemma {:induction false} HalvesInAscending(lo: nat, hi: int)
    ensures forall i, j :: 0 <= i < j < |HalvesIn(lo, hi)| ==> HalvesIn(lo, hi)[i] < HalvesIn(lo, hi)[j]
    decreases hi - lo
  {
    if hi >= lo {
      var front := HalvesIn(lo, hi - 1);
      HalvesInAscending(lo, hi - 1);
      assert forall i, j :: 0 <= i < j < |front| ==> front[i] < front[j];
      forall i | 0 <= i < |front| ensures front[i] < hi {
        HalvesInSound(lo, hi - 1, front[i]);
      }
      var r := HalvesIn(lo, hi);
      assert r == front + (if IsRepeatedHalves(hi) then [hi] else []);
      forall i, j | 0 <= i < j < |r| ensures r[i] < r[j] {
        assert r[i] == front[i];
        if j < |front| {
          assert r[j] == front[j];
          assert front[i] < front[j];
        } else {
          assert r[j] == hi;
          assert front[i] < hi;
        }
      }
    }
  }

  /** Every invalid id of the range is pushed. */
  lemma {:induction false} HalvesInComplete(lo: nat, hi: int, id: nat)
    requires lo <= id <= hi && IsRepeatedHalves(id)
    ensures id in HalvesIn(lo, hi)
    decreases hi - lo
  {
    assert HalvesIn(lo, hi) == HalvesIn(lo, hi - 1) + (if IsRepeatedHalves(hi) then [hi] else []);
    if id < hi {
      HalvesInComplete(lo, hi - 1, id);
    }
  }

  /** The ids part one pushes for a whole list of ranges. */
  function HalvesInRanges(idRanges: seq<string>): seq<nat>
  {
    if |idRanges| == 0 then []
    else
      var before := HalvesInRanges(idRanges[..|idRanges| - 1]);
      var bounds := RangeBounds(idRanges[|idRanges| - 1]);
      if bounds.Some? then before + HalvesIn(bounds.value.0, bounds.value.1) else before
  }

  lemma HalvesInRangesStep(idRanges: seq<string>, r: nat)
    requires r < |idRanges|
    ensures var bounds := RangeBounds(idRanges[r]);
      HalvesInRanges(idRanges[..r + 1]) == HalvesInRanges(idRanges[..r])
        + (if bounds.Some? then HalvesIn(bounds.value.0, bounds.value.1) else [])
  {
    assert idRanges[..r + 1][..r] == idRanges[..r];
  }

  /** Part one's `for` loop over the ids of one range. */
  method RangeHalves(lo: nat, hi: nat) returns (pushed: seq<nat>)
    ensures pushed == HalvesIn(lo, hi)
  {
    pushed := [];
    var id: int := lo;
    while id <= hi
      invariant lo <= id && (id <= hi + 1 || id == lo)
      invariant pushed == HalvesIn(lo, id - 1)
      decreases hi - id
    {
      var s := DecimalString(id);
      if |s| % 2 != 0 {
        id := id + 1;
        continue;
      }
      var firstHalf := s[..|s| / 2];
      var secondHalf := s[|s| / 2..];
      if firstHalf == secondHalf {
        pushed := pushed + [id];
      }
      id := id + 1;
    }
  }

  /** Part one: the ids of every range that are invalid, and their sum. */
  method SumRepeatedHalves(input: string) returns (invalidIds: seq<nat>, sum: int)
    ensures invalidIds == HalvesInRanges(Split(input, ','))
    ensures sum == Sum(invalidIds)
  {
    var idRanges := Split(input, ',');
    invalidIds := [];
    for r := 0 to |idRanges|
      invariant invalidIds == HalvesInRanges(idRanges[..r])
    {
      HalvesInRangesStep(idRanges, r);
      var bounds := RangeBounds(idRanges[r]);
      if bounds.Some? {
        var pushed := RangeHalves(bounds.value.0, bounds.value.1);
        invalidIds := invalidIds + pushed;
      }
    }
    assert idRanges[..|idRanges|] == idRanges;
    sum := SumOf(invalidIds);
  }

  /** The summing `reduce`. */
  method SumOf(xs: seq<nat>) returns (sum: int)
    ensures sum == Sum(xs)
  {
    sum := 0;
    for i := 0 to |xs|
      invariant sum == Sum(xs[..i])
    {
      assert xs[..i + 1][..i] == xs[..i];
      sum := sum + xs[i];
    }
    assert xs[..|xs|] == xs;
  }

  // ---------------------------------------------------------------------------------
  // Part two

  /** The pattern lengths 1..m that divide n, ascending. */
  function DivisorsUpTo(n: nat, m: nat): (r: seq<nat>)
  {
    if m == 0 then [] else DivisorsUpTo(n, m - 1) + (if n % m == 0 then [m] else [])
  }

  /** Everything listed is a divisor of n in 1..m. */
  lemma {:induction false} DivisorsUpToSound(n: nat, m: nat)
    ensures forall i :: 0 <= i < |DivisorsUpTo(n, m)| ==>
      1 <= DivisorsUpTo(n, m)[i] <= m && n % DivisorsUpTo(n, m)[i] == 0
  {
    if m > 0 {
      DivisorsUpToSound(n, m - 1);
    }
  }

  /** Every divisor of n in 1..m is listed. */
  lemma {:induction false} DivisorsUpToComplete(n: nat, m: nat, k: nat)
    requires 1 <= k <= m && n % k == 0
    ensures k in DivisorsUpTo(n, m)
  {
    if k < m {
      DivisorsUpToComplete(n, m - 1, k);
    }
  }

  /**
    The candidate pattern lengths: exactly the k with 1 <= k <= len / 2 that divide len
    (`patternLength <= length / 2` in JavaScript divides exactly, which for whole k is the
    same as comparing with the rounded-down half).
   */
  method Divisors(len: nat) returns (divisors: seq<nat>)
    ensures divisors == DivisorsUpTo(len, len / 2)
    ensures forall k :: k in divisors <==> 1 <= k <= len / 2 && len % k == 0
  {
    divisors := [];
    var patternLength := 1;
    while patternLength <= len / 2
      invariant 1 <= patternLength <= len / 2 + 1
      invariant divisors == DivisorsUpTo(len, patternLength - 1)
    {
      if len % patternLength == 0 {
        divisors := divisors + [patternLength];
      }
      patternLength := patternLength + 1;
    }
    forall k | 1 <= k <= len / 2 && len % k == 0 ensures k in divisors {
      DivisorsUpToComplete(len, len / 2, k);
    }
    DivisorsUpToSound(len, len / 2);
  }

  /** A one-digit id has no candidate pattern length. */
  lemma SingleDigitHasNoDivisors(id: nat)
    requires id < 10
    ensures DivisorsUpTo(|DecimalString(id)|, |DecimalString(id)| / 2) == []
  {
  }

  predicate StartsWith(s: string, pattern: string)
  {
    |pattern| <= |s| && s[..|pattern|] == pattern
  }

  /** The first position from `from` on, but not the end, where the pattern starts; else |s|. */
  function NextCut(s: string, pattern: string, from: nat): (q: nat)
    requires from <= |s|
    ensures from <= q <= |s|
    ensures q < |s| ==> StartsWith(s[q..], pattern)
    ensures forall k :: from <= k < q ==> !StartsWith(s[k..], pattern)
    decreases |s| - from
  {
    if from == |s| then |s|
    else if StartsWith(s[from..], pattern) then from
    else NextCut(s, pattern, from + 1)
  }

  /**
    `s.split(new RegExp("(?=" + pattern + ")"))` for a pattern of digits: the string is cut
    before every position from 1 on where the pattern begins; an empty match at position 0
    makes no cut, as in JavaScript.
   */
  function LookaheadSplit(s: string, pattern: string): (pieces: seq<string>)
    ensures |pieces| >= 1
    decreases |s|
  {
    if |s| == 0 then [s]
    else
      var q := NextCut(s, pattern, 1);
      if q == |s| then [s] else [s[..q]] + LookaheadSplit(s[q..], pattern)
  }

  /** The pieces of the split, put back together, are the string. */
  lemma {:induction false} LookaheadSplitConcat(s: string, pattern: string)
    ensures Concat(LookaheadSplit(s, pattern)) == s
    decreases |s|
  {
    if |s| > 0 {
      var q := NextCut(s, pattern, 1);
      if q == |s| {
        assert Concat([s]) == s + Concat([]);
      } else {
        LookaheadSplitConcat(s[q..], pattern);
        var p := LookaheadSplit(s, pattern);
        assert p == [s[..q]] + LookaheadSplit(s[q..], pattern);
        assert p[1..] == LookaheadSplit(s[q..], pattern);
        assert s == s[..q] + s[q..];
      }
    }
  }

  /** The pattern written n times. */
  function Repeat(pattern: string, n: nat): (r: string)
    ensures |r| == n * |pattern|
  {
    if n == 0 then [] else pattern + Repeat(pattern, n - 1)
  }

  predicate AllEqual(pieces: seq<string>, pattern: string)
  {
    forall i :: 0 <= i < |pieces| ==> pieces[i] == pattern
  }

  lemma {:induction false} ConcatAllEqual(pieces: seq<string>, pattern: string)
    requires AllEqual(pieces, pattern)
    ensures Concat(pieces) == Repeat(pattern, |pieces|)
  {
    if |pieces| > 0 {
      ConcatAllEqual(pieces[1..], pattern);
    }
  }

  /** Part two's test for one pattern length: every piece of the split is the pattern. */
  predicate AcceptsPatternLength(s: string, k: nat)
    requires k <= |s|
  {
    AllEqual(LookaheadSplit(s, s[..k]), s[..k])
  }

  /**
    An accepted pattern length k means the digits are their first k digits written m times,
    where m * k is the length (so m is len / k).
   */
  lemma AcceptedIsRepetition(s: string, k: nat) returns (m: nat)
    requires 1 <= k <= |s| && AcceptsPatternLength(s, k)
    ensures m * k == |s| && s == Repeat(s[..k], m)
  {
    var pieces := LookaheadSplit(s, s[..k]);
    LookaheadSplitConcat(s, s[..k]);
    ConcatAllEqual(pieces, s[..k]);
    m := |pieces|;
  }

  /**
    The converse does not hold: "1111" is "11" written twice, yet the pattern length 2 is
    rejected, because "11" also begins at position 1 and the split cuts there too.
   */
  lemma OverlappingPatternRejected()
    ensures "1111" == Repeat("11", 2)
    ensures !AcceptsPatternLength("1111", 2)
  {
    var s := "1111";
    assert s[..2] == "11";
    assert StartsWith(s[1..], "11");
    assert NextCut(s, "11", 1) == 1;
    var pieces := LookaheadSplit(s, "11");
    assert pieces[0] == "1";
  }

  /** The copies of an id that part two pushes: one per accepted pattern length. */
  function PushesFor(s: string, divisors: seq<nat>, id: nat): (r: seq<nat>)
    requires forall i :: 0 <= i < |divisors| ==> divisors[i] <= |s|
    ensures |r| <= |divisors|
  {
    if |divisors| == 0 then []
    else
      PushesFor(s, divisors[..|divisors| - 1], id)
        + (if AcceptsPatternLength(s, divisors[|divisors| - 1]) then [id] else [])
  }

  /** Every push for an id is that id. */
  lemma {:induction false} PushesForOnlyId(s: string, divisors: seq<nat>, id: nat, x: nat)
    requires forall i :: 0 <= i < |divisors| ==> divisors[i] <= |s|
    requires x in PushesFor(s, divisors, id)
    ensures x == id
  {
    var front := divisors[..|divisors| - 1];
    if x in PushesFor(s, front, id) {
      PushesForOnlyId(s, front, id, x);
    }
  }

  /** The pushes for one id, over its candidate pattern lengths. */
  function PatternPushes(id: nat): seq<nat>
  {
    var s := DecimalString(id);
    WithinLength(s, DivisorsUpTo(|s|, |s| / 2));
    PushesFor(s, DivisorsUpTo(|s|, |s| / 2), id)
  }

  /** The digits are a shorter pattern, their first k digits, written m times. */
  predicate IsRepetitionOf(s: string, k: nat, m: nat)
  {
    1 <= k <= |s| / 2 && m * k == |s| && s == Repeat(s[..k], m)
  }

  /** A pushed id's digits are a shorter pattern, its first k digits, written m times. */
  lemma PushedIsRepetition(id: nat) returns (k: nat, m: nat)
    requires |PatternPushes(id)| > 0
    ensures IsRepetitionOf(DecimalString(id), k, m)
  {
    var s := DecimalString(id);
    DivisorsUpToSound(|s|, |s| / 2);
    k := AcceptedDivisor(s, DivisorsUpTo(|s|, |s| / 2), id);
    m := AcceptedIsRepetition(s, k);
  }

  /** Some listed pattern length was accepted, when anything was pushed. */
  lemma {:induction false} AcceptedDivisor(s: string, divisors: seq<nat>, id: nat) returns (k: nat)
    requires forall i :: 0 <= i < |divisors| ==> 1 <= divisors[i] <= |s| / 2 && |s| % divisors[i] == 0
    requires |PushesFor(s, divisors, id)| > 0
    ensures 1 <= k <= |s| / 2 && |s| % k == 0 && AcceptsPatternLength(s, k)
  {
    var last := divisors[|divisors| - 1];
    if AcceptsPatternLength(s, last) {
      k := last;
    } else {
      k := AcceptedDivisor(s, divisors[..|divisors| - 1], id);
    }
  }

  // ---------------------------------------------------------------------------------
  // Which pattern lengths part two accepts

  lemma {:induction false} RepeatAdd(z: string, a: nat, b: nat)
    ensures Repeat(z, a) + Repeat(z, b) == Repeat(z, a + b)
  {
    if a > 0 {
      RepeatAdd(z, a - 1, b);
      assert Repeat(z, a) + Repeat(z, b) == z + (Repeat(z, a - 1) + Repeat(z, b));
    }
  }

  lemma {:induction false} RepeatMul(z: string, c: nat, m: nat)
    ensures Repeat(Repeat(z, c), m) == Repeat(z, c * m)
  {
    if m > 0 {
      RepeatMul(z, c, m - 1);
      RepeatAdd(z, c, c * (m - 1));
      assert c * m == c + c * (m - 1);
    }
  }

  /** A pattern written m times reads the same one pattern length further on. */
  lemma {:induction false} RepeatShift(p: string, m: nat, i: nat)
    requires i + |p| < m * |p|
    ensures Repeat(p, m)[i + |p|] == Repeat(p, m)[i]
  {
    assert |p| < m * |p|;
    assert m >= 2;
    var r := Repeat(p, m - 1);
    assert Repeat(p, m) == p + r;
    if i < |p| {
      assert r == p + Repeat(p, m - 2);
    } else {
      assert (m - 1) * |p| == m * |p| - |p|;
      RepeatShift(p, m - 1, i - |p|);
    }
  }

  lemma CommuteEqualLength(x: string, y: string)
    requires |x| == |y| && x + y == y + x
    ensures x == y
  {
    assert x == (x + y)[..|x|] == (y + x)[..|x|] == y;
  }

  /** When the shorter word commutes with the longer, it begins it, and commutes with the rest. */
  lemma CommuteShorter(x: string, y: string) returns (rest: string)
    requires |x| < |y| && x + y == y + x
    ensures y == x + rest && x + rest == rest + x && |rest| >= 1
  {
    rest := y[|x|..];
    assert y[..|x|] == (y + x)[..|x|] == (x + y)[..|x|] == x;
    assert y == x + rest;
    assert x + rest == (x + y)[|x|..] == (y + x)[|x|..] == rest + x;
  }

  /** Two words that commute are both powers of one word. */
  lemma {:induction false} CommutingWords(x: string, y: string) returns (z: string, a: nat, b: nat)
    requires |x| >= 1 && |y| >= 1 && x + y == y + x
    ensures a >= 1 && b >= 1 && x == Repeat(z, a) && y == Repeat(z, b)
    decreases |x| + |y|
  {
    if |x| == |y| {
      CommuteEqualLength(x, y);
      z, a, b := x, 1, 1;
      assert Repeat(x, 1) == x + [];
    } else if |x| < |y| {
      var rest := CommuteShorter(x, y);
      var c;
      z, a, c := CommutingWords(x, rest);
      RepeatAdd(z, a, c);
      b := a + c;
    } else {
      var rest := CommuteShorter(y, x);
      var c;
      z, b, c := CommutingWords(y, rest);
      RepeatAdd(z, b, c);
      a := b + c;
    }
  }

  /** The pattern read from position j on, and on around from its start. */
  function Rotation(p: string, j: nat): string
    requires j <= |p|
  {
    p[j..] + p[..j]
  }

  /** The pattern occurs in itself written twice only at the two ends. */
  predicate NoInnerOccurrence(p: string)
  {
    forall j :: 0 < j < |p| ==> Rotation(p, j) != p
  }

  /** A pattern equal to one of its inner rotations is a shorter word written c >= 2 times. */
  lemma InnerOccurrenceShorter(p: string, j: nat) returns (z: string, c: nat)
    requires 0 < j < |p| && Rotation(p, j) == p
    ensures c >= 2 && p == Repeat(z, c)
  {
    var x, y := p[..j], p[j..];
    assert p == x + y;
    var a, b;
    z, a, b := CommutingWords(x, y);
    RepeatAdd(z, a, b);
    c := a + b;
  }

  /** The pattern alone is not cut: it cannot begin again before its end. */
  lemma SplitOfOneCopy(p: string)
    requires |p| >= 1
    ensures LookaheadSplit(p, p) == [p]
  {
    var q := NextCut(p, p, 1);
    assert q == |p|;
  }

  /** A pattern with no inner occurrence, written m >= 2 times, is cut first after one copy. */
  lemma SplitOfCopies(p: string, m: nat)
    requires |p| >= 1 && m >= 2 && NoInnerOccurrence(p)
    ensures LookaheadSplit(Repeat(p, m), p) == [p] + LookaheadSplit(Repeat(p, m - 1), p)
  {
    var s := Repeat(p, m);
    var k := |p|;
    var rest := Repeat(p, m - 2);
    assert s == p + Repeat(p, m - 1);
    assert Repeat(p, m - 1) == p + rest;
    assert s == (p + p) + rest;
    forall j | 1 <= j < k ensures !StartsWith(s[j..], p) {
      assert s[j..][..k] == (p + p)[j..j + k];
      assert (p + p)[j..j + k] == Rotation(p, j);
    }
    assert s[k..] == Repeat(p, m - 1);
    assert StartsWith(s[k..], p);
    var q := NextCut(s, p, 1);
    assert q == k;
  }

  lemma OneCopyAllEqual(p: string)
    requires |p| >= 1
    ensures AllEqual(LookaheadSplit(Repeat(p, 1), p), p)
  {
    assert Repeat(p, 1) == p + [];
    SplitOfOneCopy(p);
  }

  lemma MoreCopiesAllEqual(p: string, m: nat)
    requires |p| >= 1 && m >= 2 && NoInnerOccurrence(p)
    requires AllEqual(LookaheadSplit(Repeat(p, m - 1), p), p)
    ensures AllEqual(LookaheadSplit(Repeat(p, m), p), p)
  {
    SplitOfCopies(p, m);
    AllEqualPrepend(LookaheadSplit(Repeat(p, m - 1), p), p);
  }

  /** A pattern with no inner occurrence, written m times, splits into m copies of itself. */
  lemma {:induction false} RepeatSplitsIntoCopies(p: string, m: nat)
    requires |p| >= 1 && m >= 1 && NoInnerOccurrence(p)
    ensures AllEqual(LookaheadSplit(Repeat(p, m), p), p)
  {
    if m == 1 {
      OneCopyAllEqual(p);
    } else {
      RepeatSplitsIntoCopies(p, m - 1);
      MoreCopiesAllEqual(p, m);
    }
  }

  lemma AllEqualPrepend(pieces: seq<string>, pattern: string)
    requires AllEqual(pieces, pattern)
    ensures AllEqual([pattern] + pieces, pattern)
  {
    var longer := [pattern] + pieces;
    forall i | 1 <= i < |longer| ensures longer[i] == pattern {
      assert longer[i] == pieces[i - 1];
    }
  }

  lemma SmallMultipleIsZero(a: int, k: int)
    requires k >= 1 && -k < a * k < k
    ensures a == 0
  {
  }

  lemma DivisionUnique(n: int, k: int, q: int, r: int)
    requires k >= 1 && n == k * q + r && 0 <= r < k
    ensures n % k == r
  {
    var q', r' := n / k, n % k;
    assert (q - q') * k == r' - r;
    SmallMultipleIsZero(q - q', k);
  }

  lemma MultipleMod(m: nat, k: nat)
    requires k >= 1
    ensures (m * k) % k == 0
  {
    DivisionUnique(m * k, k, m, 0);
  }

  /** Digits that are a shorter pattern written several times have an accepted pattern length. */
  lemma {:induction false} RepetitionHasAcceptedLength(s: string, k: nat, m: nat) returns (k0: nat)
    requires IsRepetitionOf(s, k, m)
    ensures 1 <= k0 <= k && |s| % k0 == 0 && AcceptsPatternLength(s, k0)
    decreases k
  {
    var p := s[..k];
    assert m >= 1;
    if NoInnerOccurrence(p) {
      RepeatSplitsIntoCopies(p, m);
      MultipleMod(m, k);
      k0 := k;
    } else {
      var j :| 0 < j < |p| && Rotation(p, j) == p;
      var z, c := InnerOccurrenceShorter(p, j);
      RepeatMul(z, c, m);
      assert |z| >= 1;
      assert |z| < k by {
        assert c * |z| >= 2 * |z|;
      }
      assert s == Repeat(z, c * m);
      assert s[..|z|] == z by {
        assert Repeat(z, c * m) == z + Repeat(z, c * m - 1);
      }
      k0 := RepetitionHasAcceptedLength(s, |z|, c * m);
    }
  }

  /** An accepted pattern length is a period: the digits read the same that much further on. */
  lemma AcceptedShift(s: string, k1: nat, k2: nat)
    requires 1 <= k1 && k1 + k2 <= |s| && AcceptsPatternLength(s, k1)
    ensures StartsWith(s[k1..], s[..k2])
  {
    var m := AcceptedIsRepetition(s, k1);
    var p := s[..k1];
    forall i | 0 <= i < k2 ensures s[k1 + i] == s[i] {
      RepeatShift(p, m, i);
    }
    assert s[k1..][..k2] == s[..k2];
  }

  /** At most one pattern length of the first half is accepted. */
  lemma AcceptedIsUnique(s: string, k1: nat, k2: nat)
    requires 1 <= k1 <= k2 && k1 + k2 <= |s|
    requires AcceptsPatternLength(s, k1) && AcceptsPatternLength(s, k2)
    ensures k1 == k2
  {
    var pattern := s[..k2];
    AcceptedShift(s, k1, k2);
    var q := NextCut(s, pattern, 1);
    assert q <= k1;
    var pieces := LookaheadSplit(s, pattern);
    assert pieces[0] == s[..q];
  }

  predicate AllWithin(lengths: seq<nat>, n: nat)
  {
    forall i :: 0 <= i < |lengths| ==> lengths[i] <= n
  }

  /** One more candidate length: it pushes the id when it divides the length and is accepted. */
  lemma PushesForDivisorsStep(s: string, mm: nat, id: nat)
    requires 1 <= mm <= |s| / 2
    ensures forall i :: 0 <= i < |DivisorsUpTo(|s|, mm)| ==> DivisorsUpTo(|s|, mm)[i] <= |s|
    ensures AllWithin(DivisorsUpTo(|s|, mm - 1), |s|)
    ensures PushesFor(s, DivisorsUpTo(|s|, mm), id) == PushesFor(s, DivisorsUpTo(|s|, mm - 1), id)
      + (if |s| % mm == 0 && AcceptsPatternLength(s, mm) then [id] else [])
  {
    DivisorsUpToSound(|s|, mm);
    DivisorsUpToSound(|s|, mm - 1);
    var front := DivisorsUpTo(|s|, mm - 1);
    var divisors := DivisorsUpTo(|s|, mm);
    if |s| % mm == 0 {
      assert divisors == front + [mm];
      assert divisors[..|divisors| - 1] == front;
    } else {
      assert divisors == front;
    }
  }

  /** A pattern length of the first half that part two accepts. */
  predicate IsAcceptedLength(s: string, k: nat)
  {
    1 <= k <= |s| / 2 && AcceptsPatternLength(s, k)
  }

  /**
    With k0 the accepted pattern length, candidate length mm pushes the id exactly when it
    is k0, so the pushes so far stay one copy of the id once k0 is reached and none before.
   */
  lemma PushesForAcceptedStep(s: string, mm: nat, id: nat, k0: nat)
    requires 1 <= mm <= |s| / 2 && IsAcceptedLength(s, k0)
    requires AllWithin(DivisorsUpTo(|s|, mm - 1), |s|)
    requires PushesFor(s, DivisorsUpTo(|s|, mm - 1), id) == if k0 <= mm - 1 then [id] else []
    ensures AllWithin(DivisorsUpTo(|s|, mm), |s|)
    ensures PushesFor(s, DivisorsUpTo(|s|, mm), id) == if k0 <= mm then [id] else []
  {
    PushesForDivisorsStep(s, mm, id);
    var m := AcceptedIsRepetition(s, k0);
    MultipleMod(m, k0);
    var before := PushesFor(s, DivisorsUpTo(|s|, mm - 1), id);
    if |s| % mm == 0 && AcceptsPatternLength(s, mm) {
      if mm <= k0 {
        AcceptedIsUnique(s, mm, k0);
      } else {
        AcceptedIsUnique(s, k0, mm);
      }
      assert PushesFor(s, DivisorsUpTo(|s|, mm), id) == [] + [id];
    } else {
      assert mm != k0;
      assert PushesFor(s, DivisorsUpTo(|s|, mm), id) == before + [];
    }
  }

  /**
    With k0 the accepted pattern length, the candidate lengths up to mm push the id once if
    they reach k0 and not at all otherwise.
   */
  lemma {:induction false} PushesForAcceptedOnce(s: string, mm: nat, id: nat, k0: nat)
    requires mm <= |s| / 2 && IsAcceptedLength(s, k0)
    ensures AllWithin(DivisorsUpTo(|s|, mm), |s|)
    ensures PushesFor(s, DivisorsUpTo(|s|, mm), id) == if k0 <= mm then [id] else []
  {
    if mm == 0 {
      assert DivisorsUpTo(|s|, mm) == [];
    } else {
      PushesForAcceptedOnce(s, mm - 1, id, k0);
      PushesForAcceptedStep(s, mm, id, k0);
    }
  }

  /** An id whose digits are a shorter pattern written several times is pushed once. */
  lemma RepetitionPushedOnce(id: nat, k: nat, m: nat)
    requires IsRepetitionOf(DecimalString(id), k, m)
    ensures PatternPushes(id) == [id]
  {
    var s := DecimalString(id);
    var k0 := RepetitionHasAcceptedLength(s, k, m);
    PushesForAcceptedOnce(s, |s| / 2, id, k0);
  }

  /** The id's digits are some shorter pattern written several times. */
  ghost predicate IsRepeatedPattern(id: nat)
  {
    exists k, m :: IsRepetitionOf(DecimalString(id), k, m)
  }

  /** Part two pushes an id once when its digits are a shorter pattern written several times, else never. */
  lemma PatternPushesExact(id: nat)
    ensures PatternPushes(id) == if IsRepeatedPattern(id) then [id] else []
  {
    if IsRepeatedPattern(id) {
      var k, m :| IsRepetitionOf(DecimalString(id), k, m);
      RepetitionPushedOnce(id, k, m);
    } else if |PatternPushes(id)| > 0 {
      var k, m := PushedIsRepetition(id);
      assert false;
    }
  }

  /** The ids lo..hi that part two pushes, in order, with repetitions. */
  function PatternsIn(lo: nat, hi: int): seq<nat>
    decreases hi - lo
  {
    if hi < lo then [] else PatternsIn(lo, hi - 1) + PatternPushes(hi)
  }

  /** Part two pushes only ids of the range whose digits are a repeated pattern. */
  lemma {:induction false} PatternsInSound(lo: nat, hi: int, x: nat)
    requires x in PatternsIn(lo, hi)
    ensures lo <= x <= hi
    ensures IsRepeatedPattern(x)
    decreases hi - lo
  {
    if x in PatternsIn(lo, hi - 1) {
      PatternsInSound(lo, hi - 1, x);
    } else {
      var s := DecimalString(hi);
      WithinLength(s, DivisorsUpTo(|s|, |s| / 2));
      PushesForOnlyId(s, DivisorsUpTo(|s|, |s| / 2), hi, x);
      var k, m := PushedIsRepetition(hi);
    }
  }

  /** Every id of the range whose digits are a repeated pattern is pushed. */
  lemma PatternsInComplete(lo: nat, hi: int, x: nat)
    requires lo <= x <= hi && IsRepeatedPattern(x)
    ensures x in PatternsIn(lo, hi)
  {
    PatternPushesExact(x);
    PushedIdInRange(lo, hi, x);
  }

  /** An id the checks push is among the pushes of every range holding it. */
  lemma {:induction false} PushedIdInRange(lo: nat, hi: int, x: nat)
    requires lo <= x <= hi && PatternPushes(x) == [x]
    ensures x in PatternsIn(lo, hi)
    decreases hi - lo
  {
    assert PatternsIn(lo, hi) == PatternsIn(lo, hi - 1) + PatternPushes(hi);
    if x < hi {
      PushedIdInRange(lo, hi - 1, x);
    }
  }

  /** The pushed ids ascend, so, as in part one, no id of a range is pushed twice. */
  lemma {:induction false} PatternsInAscending(lo: nat, hi: int)
    ensures forall i, j :: 0 <= i < j < |PatternsIn(lo, hi)| ==> PatternsIn(lo, hi)[i] < PatternsIn(lo, hi)[j]
    decreases hi - lo
  {
    if hi >= lo {
      var front := PatternsIn(lo, hi - 1);
      PatternsInAscending(lo, hi - 1);
      assert forall i, j :: 0 <= i < j < |front| ==> front[i] < front[j];
      forall i | 0 <= i < |front| ensures front[i] < hi {
        PatternsInSound(lo, hi - 1, front[i]);
      }
      PatternPushesExact(hi);
      var r := PatternsIn(lo, hi);
      assert r == front + (if IsRepeatedPattern(hi) then [hi] else []);
      forall i, j | 0 <= i < j < |r| ensures r[i] < r[j] {
        assert r[i] == front[i];
        if j < |front| {
          assert r[j] == front[j];
          assert front[i] < front[j];
        } else {
          assert r[j] == hi;
          assert front[i] < hi;
        }
      }
    }
  }

  function PatternsInRanges(idRanges: seq<string>): seq<nat>
  {
    if |idRanges| == 0 then []
    else
      var before := PatternsInRanges(idRanges[..|idRanges| - 1]);
      var bounds := RangeBounds(idRanges[|idRanges| - 1]);
      if bounds.Some? then before + PatternsIn(bounds.value.0, bounds.value.1) else before
  }

  lemma PatternsInRangesStep(idRanges: seq<string>, r: nat)
    requires r < |idRanges|
    ensures var bounds := RangeBounds(idRanges[r]);
      PatternsInRanges(idRanges[..r + 1]) == PatternsInRanges(idRanges[..r])
        + (if bounds.Some? then PatternsIn(bounds.value.0, bounds.value.1) else [])
  {
    assert idRanges[..r + 1][..r] == idRanges[..r];
  }

  /** Candidate pattern lengths are no longer than the digits. */
  lemma WithinLength(s: string, divisors: seq<nat>)
    requires divisors == DivisorsUpTo(|s|, |s| / 2)
    ensures forall i :: 0 <= i < |divisors| ==> divisors[i] <= |s|
  {
    DivisorsUpToSound(|s|, |s| / 2);
  }

  /** One more pattern length checked: its push, if any, comes after the earlier ones. */
  lemma PushesForStep(s: string, divisors: seq<nat>, id: nat, d: nat)
    requires d < |divisors| && forall i :: 0 <= i < |divisors| ==> divisors[i] <= |s|
    ensures PushesFor(s, divisors[..d + 1], id)
      == PushesFor(s, divisors[..d], id) + (if AcceptsPatternLength(s, divisors[d]) then [id] else [])
  {
    assert divisors[..d + 1][..d] == divisors[..d];
  }

  /** The checks for one id: one push per pattern length whose split holds only the pattern. */
  method CheckId(id: nat) returns (pushes: seq<nat>)
    ensures pushes == PatternPushes(id)
  {
    var s := DecimalString(id);
    var divisors := Divisors(|s|);
    WithinLength(s, divisors);
    pushes := [];
    for d := 0 to |divisors|
      invariant pushes == PushesFor(s, divisors[..d], id)
    {
      PushesForStep(s, divisors, id, d);
      var pattern := s[..divisors[d]];
      var potentialMatches := LookaheadSplit(s, pattern);
      if AllEqual(potentialMatches, pattern) {
        pushes := pushes + [id];
      }
    }
    assert divisors[..|divisors|] == divisors;
  }

  /** One more id of the range: its pushes come after those of the ids before it. */
  lemma PatternsInStep(lo: nat, id: nat, before: seq<nat>, pushes: seq<nat>, after: seq<nat>)
    requires lo <= id && before == PatternsIn(lo, id - 1) && pushes == PatternPushes(id)
    requires after == before + pushes
    ensures after == PatternsIn(lo, id)
  {
  }

  /** Part two's `for` loop over the ids of one range. */
  method RangePatterns(lo: nat, hi: nat) returns (pushed: seq<nat>)
    ensures pushed == PatternsIn(lo, hi)
  {
    pushed := [];
    var id: int := lo;
    while id <= hi
      invariant lo <= id && (id <= hi + 1 || id == lo)
      invariant pushed == PatternsIn(lo, id - 1)
      decreases hi - id
    {
      var pushes := CheckId(id);
      ghost var before := pushed;
      pushed := pushed + pushes;
      PatternsInStep(lo, id, before, pushes, pushed);
      id := id + 1;
    }
    assert PatternsIn(lo, id - 1) == PatternsIn(lo, hi);
  }

  /** Part two: the ids of every range pushed once per accepted pattern length, and their sum. */
  method SumRepeatedPatterns(input: string) returns (invalidIds: seq<nat>, sum: int)
    ensures invalidIds == PatternsInRanges(Split(input, ','))
    ensures sum == Sum(invalidIds)
  {
    var idRanges := Split(input, ',');
    invalidIds := [];
    for r := 0 to |idRanges|
      invariant invalidIds == PatternsInRanges(idRanges[..r])
    {
      PatternsInRangesStep(idRanges, r);
      var bounds := RangeBounds(idRanges[r]);
      if bounds.Some? {
        var pushed := RangePatterns(bounds.value.0, bounds.value.1);
        invalidIds := invalidIds + pushed;
      }
    }
    assert idRanges[..|idRanges|] == idRanges;
    sum := SumOf(invalidIds);
  }
}
