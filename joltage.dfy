/**
  Day 3: each battery bank is a string of digits. Part one turns on two batteries and
  reads their digits, left one first, as a two-digit joltage; the bank gives its largest
  such joltage. Part two turns on twelve batteries, chosen greedily from left to right,
  and reads the twelve digits as one number. Both parts add up the banks' values.
 */
module Joltage {
  import opened JsText

  // ---------------------------------------------------------------------------------
  // Part one

  /** `Number(joltages[left] + joltages[right])`: the two digits read as a two-digit number. */
  function PairValue(bank: string, left: nat, right: nat): (v: nat)
    requires IsDigitRun(bank) && left < |bank| && right < |bank|
    ensures v < 100
  {
    10 * DigitValue(bank[left]) + DigitValue(bank[right])
  }

  /** PairValue is what `Number` makes of the two characters put side by side. */
  lemma PairValueIsNumber(bank: string, left: nat, right: nat)
    requires IsDigitRun(bank) && left < |bank| && right < |bank|
    ensures Number([bank[left], bank[right]]) == Some(PairValue(bank, left, right))
  {
    var s := [bank[left], bank[right]];
    assert IsDigitRun(s);
    assert s[..1] == [bank[left]] && [bank[left]][..0] == [];
    assert DecimalValue(s[..1]) == DigitValue(bank[left]);
  }

  function Max(a: int, b: int): int
  {
    if a >= b then a else b
  }

  /** The best joltage whose right battery is `right`, over the left batteries 0..k-1. */
  function ColumnMax(bank: string, right: nat, k: nat): nat
    requires IsDigitRun(bank) && k <= right < |bank|
  {
    if k == 0 then 0 else Max(ColumnMax(bank, right, k - 1), PairValue(bank, k - 1, right))
  }

  /** The best joltage of two batteries among the first n, or 0 when n < 2. */
  function PrefixMax(bank: string, n: nat): nat
    requires IsDigitRun(bank) && n <= |bank|
  {
    if n == 0 then 0 else Max(PrefixMax(bank, n - 1), ColumnMax(bank, n - 1, n - 1))
  }

  /** A bank's value in part one: the largest pair joltage, and 0 when it has no pair. */
  function BankMax(bank: string): (v: nat)
    requires IsDigitRun(bank)
  {
    PrefixMax(bank, |bank|)
  }

  lemma {:induction false} ColumnMaxBound(bank: string, right: nat, k: nat, left: nat)
    requires IsDigitRun(bank) && k <= right < |bank| && left < k
    ensures PairValue(bank, left, right) <= ColumnMax(bank, right, k)
  {
    if left < k - 1 {
      ColumnMaxBound(bank, right, k - 1, left);
    }
  }

  lemma {:induction false} ColumnMaxAttained(bank: string, right: nat, k: nat) returns (left: nat)
    requires IsDigitRun(bank) && 1 <= k <= right < |bank|
    ensures left < k && ColumnMax(bank, right, k) == PairValue(bank, left, right)
  {
    if k == 1 || ColumnMax(bank, right, k - 1) <= PairValue(bank, k - 1, right) {
      left := k - 1;
    } else {
      left := ColumnMaxAttained(bank, right, k - 1);
    }
  }

  lemma {:induction false} PrefixMaxBound(bank: string, n: nat, left: nat, right: nat)
    requires IsDigitRun(bank) && n <= |bank| && left < right < n
    ensures PairValue(bank, left, right) <= PrefixMax(bank, n)
  {
    if right < n - 1 {
      PrefixMaxBound(bank, n - 1, left, right);
    } else {
      ColumnMaxBound(bank, right, right, left);
    }
  }

  lemma {:induction false} PrefixMaxAttained(bank: string, n: nat) returns (left: nat, right: nat)
    requires IsDigitRun(bank) && 2 <= n <= |bank|
    ensures left < right < n && PrefixMax(bank, n) == PairValue(bank, left, right)
  {
    if n == 2 {
      PrefixMaxOfShort(bank, 1);
    }
    if n == 2 || PrefixMax(bank, n - 1) <= ColumnMax(bank, n - 1, n - 1) {
      right := n - 1;
      left := ColumnMaxAttained(bank, n - 1, n - 1);
    } else {
      left, right := PrefixMaxAttained(bank, n - 1);
    }
  }

  lemma {:induction false} PrefixMaxOfShort(bank: string, n: nat)
    requires IsDigitRun(bank) && n <= |bank| && n < 2
    ensures PrefixMax(bank, n) == 0
  {
    if n == 1 {
      assert PrefixMax(bank, 0) == 0;
    }
  }

  /**
    BankMax is the largest pair joltage: no pair beats it, and some pair reaches it
    whenever the bank has two batteries; a shorter bank gives 0.
   */
  lemma BankMaxIsLargestPair(bank: string)
    requires IsDigitRun(bank)
    ensures forall l, r :: 0 <= l < r < |bank| ==> PairValue(bank, l, r) <= BankMax(bank)
    ensures |bank| >= 2 ==> exists l, r :: 0 <= l < r < |bank| && BankMax(bank) == PairValue(bank, l, r)
    ensures |bank| < 2 ==> BankMax(bank) == 0
  {
    forall l, r | 0 <= l < r < |bank| ensures PairValue(bank, l, r) <= BankMax(bank) {
      PrefixMaxBound(bank, |bank|, l, r);
    }
    if |bank| >= 2 {
      var l, r := PrefixMaxAttained(bank, |bank|);
    } else {
      PrefixMaxOfShort(bank, |bank|);
    }
  }

  /** Part one's two nested loops over one bank, keeping the best joltage seen. */
  method HighCombination(bank: string) returns (highCombination: nat)
    requires IsDigitRun(bank)
    ensures forall l, r :: 0 <= l < r < |bank| ==> PairValue(bank, l, r) <= highCombination
    ensures |bank| >= 2 ==>
      exists l, r :: 0 <= l < r < |bank| && highCombination == PairValue(bank, l, r)
    ensures |bank| < 2 ==> highCombination == 0
    ensures highCombination == BankMax(bank)
  {
    highCombination := 0;
    ghost var found := false;
    ghost var bestLeft, bestRight := 0, 0;
    for left := 0 to |bank|
      invariant forall l, r :: 0 <= l < left && l < r < |bank| ==>
        PairValue(bank, l, r) <= highCombination
      invariant found ==>
        bestLeft < bestRight < |bank| && highCombination == PairValue(bank, bestLeft, bestRight)
      invariant !found ==> highCombination == 0
      invariant left >= 1 && |bank| >= 2 ==> found
    {
      for right := left + 1 to |bank|
        invariant forall l, r :: 0 <= l < left && l < r < |bank| ==>
          PairValue(bank, l, r) <= highCombination
        invariant forall r :: left < r < right ==> PairValue(bank, left, r) <= highCombination
        invariant found ==>
          bestLeft < bestRight < |bank| && highCombination == PairValue(bank, bestLeft, bestRight)
        invariant !found ==> highCombination == 0
        invariant left >= 1 && |bank| >= 2 ==> found
        invariant right > left + 1 ==> found
      {
        var joltage := PairValue(bank, left, right);
        if !found || joltage > highCombination {
          bestLeft, bestRight := left, right;
        }
        found := true;
        highCombination := Max(highCombination, joltage);
      }
    }
    BankMaxIsLargestPair(bank);
    if |bank| >= 2 {
      PrefixMaxBound(bank, |bank|, bestLeft, bestRight);
    }
  }

  /** Part one: a value per bank, pushed in order, then added up. */
  method MaxOutput(banks: seq<string>) returns (maxOutputs: seq<nat>, total: int)
    requires forall i :: 0 <= i < |banks| ==> IsDigitRun(banks[i])
    ensures |maxOutputs| == |banks|
    ensures forall i :: 0 <= i < |banks| ==> maxOutputs[i] == BankMax(banks[i])
    ensures total == Sum(maxOutputs)
  {
    maxOutputs := [];
    total := 0;
    for i := 0 to |banks|
      invariant |maxOutputs| == i
      invariant forall k :: 0 <= k < i ==> maxOutputs[k] == BankMax(banks[k])
      invariant total == Sum(maxOutputs)
    {
      var high := HighCombination(banks[i]);
      assert (maxOutputs + [high])[..i] == maxOutputs;
      maxOutputs := maxOutputs + [high];
      total := total + high;
    }
  }

  // ---------------------------------------------------------------------------------
  // Part two

  /** The number of batteries part two turns on in every bank. */
  const SequenceLength := 12

  /**
    The position the inner loop settles on: the first occurrence of the largest digit,
    since the left pointer moves only on a strictly greater one.
   */
  function FirstMaxIndex(window: string): (i: nat)
    requires |window| >= 1
    ensures i < |window|
    ensures forall k :: 0 <= k < |window| ==> window[k] <= window[i]
    ensures forall k :: 0 <= k < i ==> window[k] < window[i]
  {
    if |window| == 1 then 0
    else
      var j := FirstMaxIndex(window[..|window| - 1]);
      if window[|window| - 1] > window[j] then |window| - 1 else j
  }

  /** Only one position is a first occurrence of the largest digit. */
  lemma FirstMaxIndexUnique(window: string, i: nat)
    requires i < |window|
    requires forall k :: 0 <= k < |window| ==> window[k] <= window[i]
    requires forall k :: 0 <= k < i ==> window[k] < window[i]
    ensures i == FirstMaxIndex(window)
  {
  }

  /**
    One greedy pick, starting at `first` with `remaining` picks to make: the first largest
    digit of the window that still leaves a battery for every later pick, which runs from
    `first` to |bank| - remaining.
   */
  function Pick(bank: string, first: nat, remaining: nat): (i: nat)
    requires first + remaining <= |bank| && remaining >= 1
    ensures first <= i <= |bank| - remaining
  {
    FirstMaxBetween(bank, first, |bank| - remaining + 1)
  }

  /** The first position of the largest digit among positions lo .. hi - 1 of the bank. */
  function FirstMaxBetween(bank: string, lo: nat, hi: nat): (i: nat)
    requires lo < hi <= |bank|
    ensures lo <= i < hi
    decreases hi
  {
    if hi == lo + 1 then lo
    else
      var j := FirstMaxBetween(bank, lo, hi - 1);
      if bank[hi - 1] > bank[j] then hi - 1 else j
  }

  /** No digit between lo and hi is larger, and every earlier one is smaller. */
  lemma {:induction false} FirstMaxBetweenIsFirstMax(bank: string, lo: nat, hi: nat)
    requires lo < hi <= |bank|
    ensures var i := FirstMaxBetween(bank, lo, hi);
      (forall k :: lo <= k < hi ==> bank[k] <= bank[i]) && (forall k :: lo <= k < i ==> bank[k] < bank[i])
    decreases hi
  {
    if hi > lo + 1 {
      FirstMaxBetweenIsFirstMax(bank, lo, hi - 1);
    }
  }

  /** The greedy pick is the first largest digit of its window. */
  lemma PickIsFirstMax(bank: string, first: nat, remaining: nat)
    requires first + remaining <= |bank| && remaining >= 1
    ensures var i := Pick(bank, first, remaining);
      (forall k :: first <= k <= |bank| - remaining ==> bank[k] <= bank[i])
      && (forall k :: first <= k < i ==> bank[k] < bank[i])
  {
    FirstMaxBetweenIsFirstMax(bank, first, |bank| - remaining + 1);
  }

  /** The positions of all the picks still to make. */
  function Picks(bank: string, first: nat, remaining: nat): (picks: seq<nat>)
    requires first + remaining <= |bank|
    ensures |picks| == remaining
    ensures forall t :: 0 <= t < |picks| ==> first + t <= picks[t] <= |bank| - remaining + t
    decreases remaining
  {
    if remaining == 0 then []
    else
      var i := Pick(bank, first, remaining);
      [i] + Picks(bank, i + 1, remaining - 1)
  }

  /** The digits at those positions, in order. */
  function Selected(bank: string, first: nat, remaining: nat): (s: string)
    requires first + remaining <= |bank|
    ensures |s| == remaining
    ensures IsDigitRun(bank) ==> IsDigitRun(s)
    decreases remaining
  {
    if remaining == 0 then []
    else
      var i := Pick(bank, first, remaining);
      [bank[i]] + Selected(bank, i + 1, remaining - 1)
  }

  /** One greedy step: the digit at the first pick, then the rest of the selection. */
  lemma SelectedStep(bank: string, first: nat, remaining: nat)
    requires first + remaining <= |bank| && remaining >= 1
    ensures var i := Pick(bank, first, remaining);
      Selected(bank, first, remaining) == [bank[i]] + Selected(bank, i + 1, remaining - 1)
  {
  }

  /** The loop's invariant survives one pick. */
  lemma GreedyStep(bank: string, target: string, done: string, first: nat, remaining: nat,
                   range: string, left: nat, done': string, first': nat)
    requires first + remaining <= |bank| && remaining >= 1
    requires done + Selected(bank, first, remaining) == target
    requires range == Slice(bank, first, |bank| - remaining + 1)
    requires left == FirstMaxIndex(range)
    requires left < |range| && done' == done + [range[left]] && first' == first + left + 1
    ensures first' + (remaining - 1) <= |bank|
    ensures done' + Selected(bank, first', remaining - 1) == target
  {
    WindowPick(bank, first, remaining, range, left);
    SelectedStep(bank, first, remaining);
    assert done' + Selected(bank, first', remaining - 1)
      == done + ([bank[first + left]] + Selected(bank, first', remaining - 1));
  }

  /** The inner loop's pick in the window, shifted by the window's start, is the greedy pick. */
  lemma WindowPick(bank: string, first: nat, remaining: nat, range: string, left: nat)
    requires first + remaining <= |bank| && remaining >= 1
    requires range == Slice(bank, first, |bank| - remaining + 1)
    requires left == FirstMaxIndex(range)
    ensures first + left == Pick(bank, first, remaining)
    ensures range[left] == bank[first + left]
  {
    SliceAt(bank, first, |bank| - remaining + 1);
    PickIsFirstMax(bank, first, remaining);
    FirstMaxIndexUnique(range, Pick(bank, first, remaining) - first);
  }

  /** The window holds every position from the first to |bank| - remaining. */
  lemma WindowSize(bank: string, first: nat, remaining: nat)
    requires first + remaining <= |bank| && remaining >= 1
    ensures |Slice(bank, first, |bank| - remaining + 1)| == |bank| - remaining + 1 - first
  {
    SliceAt(bank, first, |bank| - remaining + 1);
  }

  /** The picks lie at strictly increasing positions. */
  lemma {:induction false} PicksAscending(bank: string, first: nat, remaining: nat)
    requires first + remaining <= |bank|
    ensures forall t, u :: 0 <= t < u < remaining ==>
      Picks(bank, first, remaining)[t] < Picks(bank, first, remaining)[u]
    decreases remaining
  {
    if remaining > 0 {
      var picks := Picks(bank, first, remaining);
      var i := Pick(bank, first, remaining);
      var rest := Picks(bank, i + 1, remaining - 1);
      PicksAscending(bank, i + 1, remaining - 1);
      assert picks == [i] + rest;
      forall t, u | 0 <= t < u < remaining ensures picks[t] < picks[u] {
        assert picks[u] == rest[u - 1];
        if t > 0 {
          assert picks[t] == rest[t - 1];
        }
      }
    }
  }

  /** The selected digits are the bank's digits at the picked positions. */
  lemma {:induction false} SelectedAtPicks(bank: string, first: nat, remaining: nat)
    requires first + remaining <= |bank|
    ensures forall t :: 0 <= t < remaining ==>
      Selected(bank, first, remaining)[t] == bank[Picks(bank, first, remaining)[t]]
    decreases remaining
  {
    if remaining > 0 {
      var i := Pick(bank, first, remaining);
      SelectedAtPicks(bank, i + 1, remaining - 1);
      var s, picks := Selected(bank, first, remaining), Picks(bank, first, remaining);
      var restS, restP := Selected(bank, i + 1, remaining - 1), Picks(bank, i + 1, remaining - 1);
      assert s == [bank[i]] + restS && picks == [i] + restP;
      forall t | 0 < t < remaining ensures s[t] == bank[picks[t]] {
        assert s[t] == restS[t - 1] && picks[t] == restP[t - 1];
      }
    }
  }

  /** The inner `for` loop: the first position of the largest digit of the window. */
  method LeftPointer(range: string) returns (left: nat)
    requires |range| >= 1
    ensures left == FirstMaxIndex(range)
  {
    left := 0;
    for right := left + 1 to |range|
      invariant left < right
      invariant forall k :: 0 <= k < right ==> range[k] <= range[left]
      invariant forall k :: 0 <= k < left ==> range[k] < range[left]
    {
      if range[right] > range[left] {
        left := right;
      }
    }
    FirstMaxIndexUnique(range, left);
  }

  /**
    Part two's `while` loop over one bank. The source fixes the sequence length at
    SequenceLength; here it is the parameter `sequenceLength`. The bank must have at least
    that many batteries: with fewer, the window is empty and the source appends the text
    "undefined".
   */
  method GreedySequence(bank: string, sequenceLength: nat) returns (highestSequence: string)
    requires |bank| >= sequenceLength
    ensures highestSequence == Selected(bank, 0, sequenceLength)
  {
    highestSequence := "";
    var firstIndex := 0;
    ghost var remaining: nat, target := sequenceLength, Selected(bank, 0, sequenceLength);
    while |highestSequence| < sequenceLength
      invariant |highestSequence| + remaining == sequenceLength
      invariant firstIndex + remaining <= |bank|
      invariant highestSequence + Selected(bank, firstIndex, remaining) == target
      decreases remaining
    {
      var lastIndex := (|bank| - 1) - (sequenceLength - |highestSequence| - 1);
      var range := Slice(bank, firstIndex, lastIndex + 1);
      WindowSize(bank, firstIndex, remaining);
      var left := LeftPointer(range);
      ghost var done, first := highestSequence, firstIndex;
      highestSequence := highestSequence + [range[left]];
      firstIndex := firstIndex + left + 1;
      GreedyStep(bank, target, done, first, remaining, range, left, highestSequence, firstIndex);
      remaining := remaining - 1;
    }
  }

  /** A bank's value in part two: `Number` of its selected digits. */
  function SequenceValue(bank: string, sequenceLength: nat): nat
    requires |bank| >= sequenceLength && IsDigitRun(bank)
  {
    DecimalValue(Selected(bank, 0, sequenceLength))
  }

  /** `Number(highestSequence)` for one bank. */
  method BankSequenceNumber(bank: string, sequenceLength: nat) returns (value: nat)
    requires |bank| >= sequenceLength && IsDigitRun(bank)
    ensures value == SequenceValue(bank, sequenceLength)
  {
    var sequence := GreedySequence(bank, sequenceLength);
    value := Number(sequence).value;
  }

  /** Part two: one number per bank, pushed in order, then added up. */
  method MaxSequenceOutput(banks: seq<string>, sequenceLength: nat) returns (maxOutputs: seq<nat>, total: int)
    requires forall i :: 0 <= i < |banks| ==> |banks[i]| >= sequenceLength && IsDigitRun(banks[i])
    ensures |maxOutputs| == |banks|
    ensures forall i :: 0 <= i < |banks| ==> maxOutputs[i] == SequenceValue(banks[i], sequenceLength)
    ensures total == Sum(maxOutputs)
  {
    maxOutputs := [];
    total := 0;
    for i := 0 to |banks|
      invariant |maxOutputs| == i
      invariant forall k :: 0 <= k < i ==> maxOutputs[k] == SequenceValue(banks[k], sequenceLength)
      invariant total == Sum(maxOutputs)
    {
      var value := BankSequenceNumber(banks[i], sequenceLength);
      assert (maxOutputs + [value])[..i] == maxOutputs;
      maxOutputs := maxOutputs + [value];
      total := total + value;
    }
  }

  // ---------------------------------------------------------------------------------
  // The greedy choice is the best one

  /** Positions in a bank that strictly increase, all at `first` or later. */
  predicate IsSelection(bank: string, first: nat, positions: seq<nat>)
  {
    (forall t :: 0 <= t < |positions| ==> first <= positions[t] < |bank|)
    && (forall t, u :: 0 <= t < u < |positions| ==> positions[t] < positions[u])
  }

  /** The characters of the bank at the given positions. */
  function Chars(bank: string, positions: seq<nat>): (s: string)
    requires forall t :: 0 <= t < |positions| ==> positions[t] < |bank|
    ensures |s| == |positions|
    ensures forall t :: 0 <= t < |s| ==> s[t] == bank[positions[t]]
  {
    seq(|positions|, t requires 0 <= t < |positions| => bank[positions[t]])
  }

  /** Lexicographic order on strings of the same length. */
  predicate LexLe(a: string, b: string)
    requires |a| == |b|
  {
    |a| == 0 || a[0] < b[0] || (a[0] == b[0] && LexLe(a[1..], b[1..]))
  }

  /** Strictly increasing positions leave room: the t-th is at least t past the first. */
  lemma {:induction false} SelectionSpread(bank: string, first: nat, positions: seq<nat>, t: nat)
    requires IsSelection(bank, first, positions) && t < |positions|
    ensures positions[0] + t <= positions[t]
  {
    if t > 0 {
      SelectionSpread(bank, first, positions, t - 1);
    }
  }

  /**
    No selection of `remaining` positions from `first` on reads lexicographically above
    the greedy one: a first digit before the greedy pick is smaller (the pick is the first
    largest in the window), and one at or after it is at most equal, with the rest chosen
    after the pick.
   */
  lemma {:induction false} GreedyIsLexMax(bank: string, first: nat, remaining: nat, positions: seq<nat>)
    requires first + remaining <= |bank|
    requires |positions| == remaining && IsSelection(bank, first, positions)
    ensures LexLe(Chars(bank, positions), Selected(bank, first, remaining))
    decreases remaining
  {
    if remaining > 0 {
      var i := Pick(bank, first, remaining);
      var p := positions[0];
      var a, b := Chars(bank, positions), Selected(bank, first, remaining);
      SelectedStep(bank, first, remaining);
      FirstDigitAtMost(bank, first, remaining, positions);
      if a[0] == b[0] {
        var rest := positions[1..];
        RestIsSelection(bank, first, remaining, positions);
        GreedyIsLexMax(bank, i + 1, remaining - 1, rest);
        assert a[1..] == Chars(bank, rest);
        assert b[1..] == Selected(bank, i + 1, remaining - 1);
      }
    }
  }

  /**
    The first digit of a selection is at most the greedy one, and when they are equal the
    selection's first position is at or after the greedy pick.
   */
  lemma FirstDigitAtMost(bank: string, first: nat, remaining: nat, positions: seq<nat>)
    requires first + remaining <= |bank| && remaining >= 1
    requires |positions| == remaining && IsSelection(bank, first, positions)
    ensures var i := Pick(bank, first, remaining);
      bank[positions[0]] <= bank[i] && (bank[positions[0]] == bank[i] ==> i <= positions[0])
  {
    SelectionSpread(bank, first, positions, remaining - 1);
    PickIsFirstMax(bank, first, remaining);
  }

  /** After an equal first digit, the rest of a selection starts after the greedy pick. */
  lemma RestIsSelection(bank: string, first: nat, remaining: nat, positions: seq<nat>)
    requires first + remaining <= |bank| && remaining >= 1
    requires |positions| == remaining && IsSelection(bank, first, positions)
    requires Pick(bank, first, remaining) <= positions[0]
    ensures IsSelection(bank, Pick(bank, first, remaining) + 1, positions[1..])
  {
    var rest := positions[1..];
    forall t | 0 <= t < |rest| ensures positions[0] < rest[t] {
      assert rest[t] == positions[t + 1];
    }
  }

  /** The value of a digit run from its first digit: d * 10^(n-1) + the rest. */
  lemma {:induction false} DecimalValueFront(s: string)
    requires IsDigitRun(s) && |s| >= 1
    ensures DecimalValue(s) == DigitValue(s[0]) * Pow10(|s| - 1) + DecimalValue(s[1..])
    decreases |s|
  {
    if |s| == 1 {
      assert s[..0] == [] && s[1..] == [];
    } else {
      var init := s[..|s| - 1];
      DecimalValueFront(init);
      assert init[1..] == s[1..][..|s[1..]| - 1];
      assert s[1..][|s[1..]| - 1] == s[|s| - 1];
      FrontStep(DigitValue(s[0]), Pow10(|s| - 2), DecimalValue(init[1..]), DigitValue(s[|s| - 1]));
    }
  }

  /** Appending a digit to d * p + x multiplies the place value p by ten. */
  lemma FrontStep(d: int, p: int, x: int, last: int)
    ensures 10 * (d * p + x) + last == d * (10 * p) + (10 * x + last)
  {
  }

  /** A digit run of length n is below 10^n. */
  lemma {:induction false} DecimalValueBound(s: string)
    requires IsDigitRun(s)
    ensures DecimalValue(s) < Pow10(|s|)
    decreases |s|
  {
    if |s| > 0 {
      DecimalValueBound(s[..|s| - 1]);
    }
  }

  /** For digit runs of the same length, lexicographic order is numeric order. */
  lemma {:induction false} LexLeValue(a: string, b: string)
    requires IsDigitRun(a) && IsDigitRun(b) && |a| == |b| && LexLe(a, b)
    ensures DecimalValue(a) <= DecimalValue(b)
    decreases |a|
  {
    if |a| > 0 {
      DecimalValueFront(a);
      DecimalValueFront(b);
      if a[0] < b[0] {
        DecimalValueBound(a[1..]);
        FrontLess(DigitValue(a[0]), DigitValue(b[0]), Pow10(|a| - 1), DecimalValue(a[1..]), DecimalValue(b[1..]));
      } else {
        LexLeValue(a[1..], b[1..]);
      }
    }
  }

  /** A smaller leading digit wins whatever follows it, as the rest is below the place value. */
  lemma FrontLess(da: int, db: int, p: int, ra: int, rb: int)
    requires da < db && 0 <= ra < p && 0 <= rb
    ensures da * p + ra < db * p + rb
  {
    var k := db - da - 1;
    assert db * p == da * p + p + k * p by {
      assert db == da + 1 + k;
    }
    assert k * p >= 0;
  }

  /**
    The greedy sequence is the largest number that can be read from `sequenceLength`
    batteries of the bank taken in order.
   */
  lemma SequenceValueIsLargest(bank: string, sequenceLength: nat, positions: seq<nat>)
    requires |bank| >= sequenceLength && IsDigitRun(bank)
    requires |positions| == sequenceLength && IsSelection(bank, 0, positions)
    ensures DecimalValue(Chars(bank, positions)) <= SequenceValue(bank, sequenceLength)
  {
    GreedyIsLexMax(bank, 0, sequenceLength, positions);
    LexLeValue(Chars(bank, positions), Selected(bank, 0, sequenceLength));
  }

  /** ... and the greedy positions are such a selection, so the maximum is attained. */
  lemma GreedyIsSelection(bank: string, sequenceLength: nat)
    requires |bank| >= sequenceLength && IsDigitRun(bank)
    ensures IsSelection(bank, 0, Picks(bank, 0, sequenceLength))
    ensures Chars(bank, Picks(bank, 0, sequenceLength)) == Selected(bank, 0, sequenceLength)
  {
    PicksAscending(bank, 0, sequenceLength);
    SelectedAtPicks(bank, 0, sequenceLength);
  }
}
