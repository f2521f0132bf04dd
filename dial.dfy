/**
  Day 1: a dial numbered 0 to 99 that starts at 50 and is turned by operations such as
  "L68" (68 clicks towards lower numbers) and "R48" (48 clicks towards higher numbers).
  Part one counts the operations that leave the dial at 0; part two counts every click
  that brings the dial to 0, from a closed formula applied once per operation.
 */
module Dial {
  import opened JsText

  /** The reading of the dial before the first operation. */
  const StartReading := 50

  /** JavaScript's `a % 100`: the remainder takes the sign of a. */
  function JsRem100(a: int): (r: int)
    ensures -100 < r < 100
    ensures a >= 0 ==> r >= 0
    ensures a < 0 ==> r <= 0
    ensures (a - r) % 100 == 0
  {
    if a >= 0 then a % 100 else -((-a) % 100)
  }

  /** `operation.slice(1)`: everything after the direction letter. */
  function Amount(operation: string): string
  {
    if |operation| == 0 then [] else operation[1..]
  }

  /** The source turns the text after the letter into a number; it must be a digit run. */
  predicate IsOperation(operation: string)
  {
    IsDigitRun(Amount(operation))
  }

  /** `getChangeAmount`: an operation starting with L turns down, any other turns up. */
  function ChangeAmount(operation: string): int
    requires IsOperation(operation)
  {
    var n: int := DecimalValue(Amount(operation));
    if |operation| > 0 && operation[0] == 'L' then -n else n
  }

  /** Writing a rotation out and reading it back gives the signed number of clicks. */
  lemma ChangeAmountOfRotation(n: nat)
    ensures IsOperation(['L'] + DecimalString(n)) && ChangeAmount(['L'] + DecimalString(n)) == -(n as int)
    ensures IsOperation(['R'] + DecimalString(n)) && ChangeAmount(['R'] + DecimalString(n)) == n
  {
    NumberOfDecimalString(n);
    assert Amount(['L'] + DecimalString(n)) == DecimalString(n);
    assert Amount(['R'] + DecimalString(n)) == DecimalString(n);
  }

  /** The values the source's tests expect of `getChangeAmount`. */
  lemma ChangeAmountVectors()
    ensures ChangeAmount("L1") == -1 && ChangeAmount("L0") == 0 && ChangeAmount("L45") == -45
    ensures ChangeAmount("L99") == -99 && ChangeAmount("L1234") == -1234
    ensures ChangeAmount("R1") == 1 && ChangeAmount("R0") == 0 && ChangeAmount("R45") == 45
    ensures ChangeAmount("R99") == 99 && ChangeAmount("R1234") == 1234
  {
    assert Amount("L1234") == "1234" && Amount("R1234") == "1234";
    assert "1234"[..3] == "123" && "123"[..2] == "12" && "12"[..1] == "1";
    assert DecimalValue("1234") == 1234;
    assert Amount("L45") == "45" && Amount("R45") == "45";
    assert Amount("L99") == "99" && Amount("R99") == "99";
  }

  /**
    `getNewValue`: `((current + change) % 100 + 100) % 100` with JavaScript's remainder.
    The result is the reading reached from `current` in `change` clicks: the number in
    0..99 that is congruent to current + change modulo 100.
   */
  function NewValue(current: int, change: int): (r: int)
    ensures 0 <= r < 100
    ensures r == (current + change) % 100
  {
    JsRem100(JsRem100(current + change) + 100)
  }

  /** The values the source's tests expect of `getNewValue`. */
  lemma NewValueVectors()
    ensures NewValue(50, 25) == 75 && NewValue(0, 99) == 99 && NewValue(99, 99) == 98
    ensures NewValue(0, -10) == 90 && NewValue(50, -125) == 25
  {
  }

  /** The dial reading after all of the operations. */
  function ReadingAfter(operations: seq<string>): (r: int)
    requires forall i :: 0 <= i < |operations| ==> IsOperation(operations[i])
    ensures 0 <= r < 100
  {
    if |operations| == 0 then StartReading
    else NewValue(ReadingAfter(operations[..|operations| - 1]), ChangeAmount(operations[|operations| - 1]))
  }

  /** Part one: the number of operations after which the dial reads 0. */
  function ZeroStops(operations: seq<string>): nat
    requires forall i :: 0 <= i < |operations| ==> IsOperation(operations[i])
  {
    if |operations| == 0 then 0
    else ZeroStops(operations[..|operations| - 1]) + (if ReadingAfter(operations) == 0 then 1 else 0)
  }

  /** Part one never counts more stops than there are operations. */
  lemma {:induction false} ZeroStopsAtMostOperations(operations: seq<string>)
    requires forall i :: 0 <= i < |operations| ==> IsOperation(operations[i])
    ensures ZeroStops(operations) <= |operations|
  {
    if |operations| > 0 {
      ZeroStopsAtMostOperations(operations[..|operations| - 1]);
    }
  }

  /** Part one's `reduce`, updating the reading and the count one operation at a time. */
  method CountZeroStops(operations: seq<string>) returns (count: nat)
    requires forall i :: 0 <= i < |operations| ==> IsOperation(operations[i])
    ensures count == ZeroStops(operations)
    ensures count <= |operations|
  {
    var current := StartReading;
    count := 0;
    for i := 0 to |operations|
      invariant current == ReadingAfter(operations[..i])
      invariant count == ZeroStops(operations[..i])
    {
      assert operations[..i + 1][..i] == operations[..i];
      current := NewValue(current, ChangeAmount(operations[i]));
      if current == 0 {
        count := count + 1;
      }
    }
    assert operations[..|operations|] == operations;
    ZeroStopsAtMostOperations(operations);
  }

  /**
    `getPartialLoopAcrossZero`: a turn that starts away from 0 and ends below 0 or above 100.
    Ending exactly on 100 is left out because it lands on 0 and is counted as such.
   */
  function PartialLoopAcrossZero(current: int, change: int): (r: bool)
    ensures current == 0 ==> !r
    ensures r <==> current != 0 && (current + change < 0 || current + change > 100)
  {
    var newValue := current + change;
    current != 0 && (newValue < 0 || newValue > 100)
  }

  /** The values the source's tests expect of `getPartialLoopAcrossZero`. */
  lemma PartialLoopVectors()
    ensures PartialLoopAcrossZero(50, -51) && PartialLoopAcrossZero(50, 51)
    ensures !PartialLoopAcrossZero(50, -1)
  {
  }

  /**
    The number of clicks that bring the dial to 0 while it turns `change` clicks from
    `current`, counted one click at a time: the meaning part two gives to each operation.
   */
  function ZeroClicks(current: int, change: int): nat
    requires 0 <= current < 100
    decreases if change >= 0 then change else -change
  {
    if change == 0 then 0
    else if change > 0 then
      var next := if current == 99 then 0 else current + 1;
      (if next == 0 then 1 else 0) + ZeroClicks(next, change - 1)
    else
      var next := if current == 0 then 99 else current - 1;
      (if next == 0 then 1 else 0) + ZeroClicks(next, change + 1)
  }

  /** One click up from c, then the remaining clicks, pass 0 as often as all the clicks. */
  lemma StepUp(current: int, change: int)
    requires 0 <= current < 100 && change > 0
    ensures (if current == 99 then 1 else 0) + ((if current == 99 then 0 else current + 1) + change - 1) / 100
      == (current + change) / 100
  {
  }

  /** One click down from c, then the remaining clicks, pass 0 as often as all the clicks. */
  lemma StepDown(current: int, change: int)
    requires 0 <= current < 100 && change < 0
    ensures (if current == 1 then 1 else 0)
        + ((if current == 0 then 99 else current - 1) - 1) / 100
        - ((if current == 0 then 99 else current - 1) + change + 1 - 1) / 100
      == (current - 1) / 100 - (current + change - 1) / 100
  {
  }

  /** Turning up from a reading c passes 0 once per multiple of 100 in (c, c + change]. */
  lemma {:induction false} ZeroClicksUp(current: int, change: nat)
    requires 0 <= current < 100
    ensures ZeroClicks(current, change) == (current + change) / 100
    decreases change
  {
    if change > 0 {
      ZeroClicksUp(if current == 99 then 0 else current + 1, change - 1);
      StepUp(current, change);
    }
  }

  /** Turning down from a reading c passes 0 once per multiple of 100 in [c + change, c). */
  lemma {:induction false} ZeroClicksDown(current: int, change: int)
    requires 0 <= current < 100 && change <= 0
    ensures ZeroClicks(current, change) == (current - 1) / 100 - (current + change - 1) / 100
    decreases -change
  {
    if change < 0 {
      ZeroClicksDown(if current == 0 then 99 else current - 1, change + 1);
      StepDown(current, change);
    }
  }

  /**
    The count that part two's `reduce` adds for one operation, as written: 1 when the dial
    ends on 0, 1 for a partial loop across 0 with the change reduced by JavaScript's `%`,
    and one per whole turn of 100 clicks.
   */
  function CountIncrement(current: int, change: int): (r: nat)
    ensures r >= (if change >= 0 then change else -change) / 100
  {
    var landed := if NewValue(current, change) == 0 then 1 else 0;
    var partial := if PartialLoopAcrossZero(current, JsRem100(change)) then 1 else 0;
    var wholeLoops := (if change >= 0 then change else -change) / 100;
    landed + partial + wholeLoops
  }

  /** Shifting by whole turns of 100 changes the quotient and not the remainder. */
  lemma ShiftByTurns(x: int, q: int)
    ensures (x + 100 * q) / 100 == x / 100 + q
    ensures (x + 100 * q) % 100 == x % 100
  {
  }

  /** Within one turn up, the three terms count the clicks onto 0 plus the double count. */
  lemma IncrementWithinTurnUp(current: int, r: int)
    requires 0 <= current < 100 && 0 <= r < 100
    ensures (if (current + r) % 100 == 0 then 1 else 0)
        + (if PartialLoopAcrossZero(current, r) then 1 else 0)
      == (current + r) / 100 + (if current == 0 && r == 0 then 1 else 0)
  {
  }

  /** Within one turn down, the same. */
  lemma IncrementWithinTurnDown(current: int, r: int)
    requires 0 <= current < 100 && -100 < r <= 0
    ensures (if (current + r) % 100 == 0 then 1 else 0)
        + (if PartialLoopAcrossZero(current, r) then 1 else 0)
      == (current - 1) / 100 - (current + r - 1) / 100 + (if current == 0 && r == 0 then 1 else 0)
  {
  }

  /**
    The increment as written counts each click onto 0 exactly once, except when the dial
    starts on 0 and turns by a multiple of 100 (0 included): then it counts one click too many,
    because landing on 0 is already one of the whole turns.
   */
  lemma CountIncrementAgainstClicks(current: int, change: int)
    requires 0 <= current < 100
    ensures CountIncrement(current, change)
      == ZeroClicks(current, change) + (if current == 0 && JsRem100(change) == 0 then 1 else 0)
  {
    if change >= 0 {
      CountIncrementUp(current, change);
    } else {
      CountIncrementDown(current, change);
    }
  }

  /** The increment against the clicks, turning up: the whole turns add one click onto 0 each. */
  lemma CountIncrementUp(current: int, change: int)
    requires 0 <= current < 100 && change >= 0
    ensures CountIncrement(current, change)
      == ZeroClicks(current, change) + (if current == 0 && JsRem100(change) == 0 then 1 else 0)
  {
    var r := JsRem100(change);
    var q := change / 100;
    assert change == r + 100 * q;
    assert CountIncrement(current, change)
      == (if NewValue(current, change) == 0 then 1 else 0) + (if PartialLoopAcrossZero(current, r) then 1 else 0) + q;
    ShiftByTurns(current + r, q);
    assert NewValue(current, change) == (current + r) % 100;
    IncrementWithinTurnUp(current, r);
    ZeroClicksUp(current, change);
  }

  /** The increment against the clicks, turning down. */
  lemma CountIncrementDown(current: int, change: int)
    requires 0 <= current < 100 && change < 0
    ensures CountIncrement(current, change)
      == ZeroClicks(current, change) + (if current == 0 && JsRem100(change) == 0 then 1 else 0)
  {
    var r := JsRem100(change);
    var q := (-change) / 100;
    assert change == r - 100 * q;
    assert CountIncrement(current, change)
      == (if NewValue(current, change) == 0 then 1 else 0) + (if PartialLoopAcrossZero(current, r) then 1 else 0) + q;
    ShiftByTurns(current + r, -q);
    ShiftByTurns(current + r - 1, -q);
    assert NewValue(current, change) == (current + r) % 100;
    IncrementWithinTurnDown(current, r);
    ZeroClicksDown(current, change);
  }

  /** An input that shows the over-count: at 0, "R100" is one click onto 0, not two. */
  lemma CountIncrementOvercountExample()
    ensures CountIncrement(0, 100) == 2 && ZeroClicks(0, 100) == 1
  {
    CountIncrementAgainstClicks(0, 100);
    ZeroClicksUp(0, 100);
  }

  /** The increment without the double count. */
  function CorrectedIncrement(current: int, change: int): int
  {
    CountIncrement(current, change) - (if current == 0 && JsRem100(change) == 0 then 1 else 0)
  }

  /** The corrected increment is exactly the number of clicks onto 0. */
  lemma CorrectedIncrementIsZeroClicks(current: int, change: int)
    requires 0 <= current < 100
    ensures CorrectedIncrement(current, change) == ZeroClicks(current, change)
  {
    CountIncrementAgainstClicks(current, change);
    assert CorrectedIncrement(current, change) == CountIncrement(current, change) - (if current == 0 && JsRem100(change) == 0 then 1 else 0);
  }

  /** Part two as written: the sum of the per-operation increments. */
  function ZeroPasses(operations: seq<string>): nat
    requires forall i :: 0 <= i < |operations| ==> IsOperation(operations[i])
  {
    if |operations| == 0 then 0
    else
      var before := operations[..|operations| - 1];
      ZeroPasses(before) + CountIncrement(ReadingAfter(before), ChangeAmount(operations[|operations| - 1]))
  }

  /** Part two as intended: the number of clicks, over all operations, that bring the dial to 0. */
  function TotalZeroClicks(operations: seq<string>): nat
    requires forall i :: 0 <= i < |operations| ==> IsOperation(operations[i])
  {
    if |operations| == 0 then 0
    else
      var before := operations[..|operations| - 1];
      TotalZeroClicks(before) + ZeroClicks(ReadingAfter(before), ChangeAmount(operations[|operations| - 1]))
  }

  /** The number of operations that start on 0 and turn by a multiple of 100. */
  function DoubleCounted(operations: seq<string>): nat
    requires forall i :: 0 <= i < |operations| ==> IsOperation(operations[i])
  {
    if |operations| == 0 then 0
    else
      var before := operations[..|operations| - 1];
      DoubleCounted(before)
        + (if ReadingAfter(before) == 0 && JsRem100(ChangeAmount(operations[|operations| - 1])) == 0 then 1 else 0)
  }

  /** Part two's answer is the true number of clicks onto 0 plus one per double-counted operation. */
  lemma {:induction false} ZeroPassesAgainstClicks(operations: seq<string>)
    requires forall i :: 0 <= i < |operations| ==> IsOperation(operations[i])
    ensures ZeroPasses(operations) == TotalZeroClicks(operations) + DoubleCounted(operations)
  {
    if |operations| > 0 {
      var before := operations[..|operations| - 1];
      ZeroPassesAgainstClicks(before);
      var c := ReadingAfter(before);
      CountIncrementAgainstClicks(c, ChangeAmount(operations[|operations| - 1]));
    }
  }

  /**
    Part two's `reduce`, as written, updating the reading and adding each operation's increment.
   */
  method CountZeroPasses(operations: seq<string>) returns (count: nat)
    requires forall i :: 0 <= i < |operations| ==> IsOperation(operations[i])
    ensures count == ZeroPasses(operations)
    ensures count == TotalZeroClicks(operations) + DoubleCounted(operations)
  {
    var current := StartReading;
    count := 0;
    for i := 0 to |operations|
      invariant 0 <= current < 100
      invariant current == ReadingAfter(operations[..i])
      invariant count == ZeroPasses(operations[..i])
    {
      assert operations[..i + 1][..i] == operations[..i];
      var change := ChangeAmount(operations[i]);
      var newValue := NewValue(current, change);
      var partialLoopAcrossZero := PartialLoopAcrossZero(current, JsRem100(change));
      var wholeLoopsAcrossZero := (if change >= 0 then change else -change) / 100;
      var countIncrement := 0;
      if newValue == 0 {
        countIncrement := countIncrement + 1;
      }
      if partialLoopAcrossZero {
        countIncrement := countIncrement + 1;
      }
      if wholeLoopsAcrossZero > 0 {
        countIncrement := countIncrement + wholeLoopsAcrossZero;
      }
      assert countIncrement == CountIncrement(current, change);
      assert ReadingAfter(operations[..i + 1]) == newValue;
      assert ZeroPasses(operations[..i + 1]) == count + countIncrement;
      current := newValue;
      count := count + countIncrement;
    }
    assert operations[..|operations|] == operations;
    ZeroPassesAgainstClicks(operations);
  }
}
