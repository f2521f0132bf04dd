/**
  Day 6: a worksheet of problems. Every line but the last holds numbers, the last line
  holds one operator per problem, and each problem folds its numbers with `*` or `+`.
  Part one reads a problem's numbers from the whitespace-separated tokens of the rows;
  part two reads one number per character position, top to bottom, and a position that
  is blank in every row separates two problems. The answer is the sum of the problems.
 */
module Worksheet {
  import opened JsText

  /** A JavaScript number as the scripts meet it: an integer, or NaN (None). */
  type Num = Option<int>

  /** What a script ends with: a thrown TypeError, or its total. */
  datatype Outcome = Thrown | Total(value: Num)

  // ---------------------------------------------------------------------------------
  // The fold shared by both parts

  /** JavaScript `*` and `+`: NaN on either side gives NaN. */
  function Times(a: Num, b: Num): Num
  {
    if a.Some? && b.Some? then Some(a.value * b.value) else None
  }

  function Plus(a: Num, b: Num): Num
  {
    if a.Some? && b.Some? then Some(a.value + b.value) else None
  }

  /** `operators[k]`, undefined (None) past the end of the list. */
  function OperatorAt(operators: seq<string>, k: nat): Option<string>
  {
    if k < |operators| then Some(operators[k]) else None
  }

  /** One step of a problem's `switch`: `*`, `+`, or keep the accumulator. */
  function Step(operator: Option<string>, acc: Num, value: Num): Num
  {
    if operator == Some("*") then Times(acc, value)
    else if operator == Some("+") then Plus(acc, value)
    else acc
  }

  /** `problem.reduce(step)` with no initial value: the fold starts from the first number. */
  function Fold(operator: Option<string>, problem: seq<Num>): Num
    requires |problem| >= 1
  {
    if |problem| == 1 then problem[0]
    else Step(operator, Fold(operator, problem[..|problem| - 1]), problem[|problem| - 1])
  }

  predicate AllNumbers(xs: seq<Num>)
  {
    forall i :: 0 <= i < |xs| ==> xs[i].Some?
  }

  function Values(xs: seq<Num>): (vs: seq<int>)
    requires AllNumbers(xs)
    ensures |vs| == |xs| && forall i :: 0 <= i < |xs| ==> vs[i] == xs[i].value
  {
    if |xs| == 0 then [] else Values(xs[..|xs| - 1]) + [xs[|xs| - 1].value]
  }

  function Product(xs: seq<int>): int
  {
    if |xs| == 0 then 1 else Product(xs[..|xs| - 1]) * xs[|xs| - 1]
  }

  /** The sum of the numbers, NaN as soon as one of them is NaN. */
  function SumOfNums(xs: seq<Num>): Num
  {
    if AllNumbers(xs) then Some(Sum(Values(xs))) else None
  }

  function ProductOfNums(xs: seq<Num>): Num
  {
    if AllNumbers(xs) then Some(Product(Values(xs))) else None
  }

  lemma ValuesOfPrefix(xs: seq<Num>)
    requires |xs| >= 1 && AllNumbers(xs)
    ensures AllNumbers(xs[..|xs| - 1]) && Values(xs) == Values(xs[..|xs| - 1]) + [xs[|xs| - 1].value]
  {
  }

  /**
    What a problem's value is: with `+` the sum of its numbers, with `*` their product
    (NaN when one of them is NaN), and with any other or a missing operator its first
    number.
   */
  lemma {:induction false} FoldMeaning(operator: Option<string>, problem: seq<Num>)
    requires |problem| >= 1
    ensures operator == Some("+") ==> Fold(operator, problem) == SumOfNums(problem)
    ensures operator == Some("*") ==> Fold(operator, problem) == ProductOfNums(problem)
    ensures operator != Some("+") && operator != Some("*") ==> Fold(operator, problem) == problem[0]
  {
    var n := |problem|;
    if n == 1 {
      if AllNumbers(problem) {
        var vs := Values(problem);
        assert vs[..0] == [];
        assert Sum(vs) == problem[0].value;
        assert Product(vs) == problem[0].value;
      }
    } else {
      var front := problem[..n - 1];
      FoldMeaning(operator, front);
      assert front[0] == problem[0];
      if AllNumbers(problem) {
        ValuesOfPrefix(problem);
        assert Values(problem)[..n - 1] == Values(front);
      } else if AllNumbers(front) {
        assert problem[n - 1].None?;
      }
    }
  }

  /** `problems.reduce((acc, problem, k) => acc + fold of problem k, 0)`; an empty problem throws. */
  function GrandTotal(problems: seq<seq<Num>>, operators: seq<string>): Outcome
  {
    if |problems| == 0 then Total(Some(0))
    else
      var n := |problems| - 1;
      match GrandTotal(problems[..n], operators)
      case Thrown => Thrown
      case Total(acc) => if |problems[n]| == 0 then Thrown else Total(Plus(acc, Fold(OperatorAt(operators, n), problems[n])))
  }

  /** The value of each problem, in order. */
  function ProblemValues(problems: seq<seq<Num>>, operators: seq<string>): (r: seq<Num>)
    requires forall k :: 0 <= k < |problems| ==> |problems[k]| >= 1
    ensures |r| == |problems|
    ensures forall k :: 0 <= k < |problems| ==> r[k] == Fold(OperatorAt(operators, k), problems[k])
  {
    if |problems| == 0 then []
    else ProblemValues(problems[..|problems| - 1], operators) + [Fold(OperatorAt(operators, |problems| - 1), problems[|problems| - 1])]
  }

  /** The total throws exactly when some problem is empty. */
  lemma {:induction false} GrandTotalThrows(problems: seq<seq<Num>>, operators: seq<string>)
    ensures GrandTotal(problems, operators).Thrown? <==> exists k :: 0 <= k < |problems| && |problems[k]| == 0
  {
    var n := |problems|;
    if n > 0 {
      var front := problems[..n - 1];
      GrandTotalThrows(front, operators);
      assert forall k :: 0 <= k < n - 1 ==> front[k] == problems[k];
    }
  }

  /** Adding one more number to a NaN-propagating sum. */
  lemma SumOfNumsAppend(xs: seq<Num>, x: Num)
    ensures SumOfNums(xs + [x]) == Plus(SumOfNums(xs), x)
  {
    var ys := xs + [x];
    assert ys[..|xs|] == xs;
    if AllNumbers(ys) {
      ValuesOfPrefix(ys);
    } else if AllNumbers(xs) {
      assert x.None?;
    }
  }

  /** With no empty problem the total is the sum of the problem values. */
  lemma {:induction false} GrandTotalIsSum(problems: seq<seq<Num>>, operators: seq<string>)
    requires forall k :: 0 <= k < |problems| ==> |problems[k]| >= 1
    ensures GrandTotal(problems, operators) == Total(SumOfNums(ProblemValues(problems, operators)))
  {
    var n := |problems|;
    if n == 0 {
      assert Values([]) == [];
    } else {
      var front := problems[..n - 1];
      GrandTotalIsSum(front, operators);
      var last := Fold(OperatorAt(operators, n - 1), problems[n - 1]);
      assert ProblemValues(problems, operators) == ProblemValues(front, operators) + [last];
      SumOfNumsAppend(ProblemValues(front, operators), last);
    }
  }

  // ---------------------------------------------------------------------------------
  // The two halves of the worksheet

  /** `problems.slice(-1).join()`: the last line, or "" when there are no lines. */
  function LastLine(lines: seq<string>): string
  {
    if |lines| == 0 then "" else lines[|lines| - 1]
  }

  /** The operators are the whitespace-separated tokens of the last line. */
  function Operators(lines: seq<string>): seq<string>
  {
    SplitSpaces(LastLine(lines))
  }

  /** `problems.slice(0, -1)`: every line but the last. */
  function ProblemRows(lines: seq<string>): seq<string>
  {
    if |lines| == 0 then [] else lines[..|lines| - 1]
  }

  // ---------------------------------------------------------------------------------
  // Part one: numbers across the rows

  /** The number of problems: the first row's token count. */
  function Width(rows: seq<string>): nat
  {
    if |rows| == 0 then 0 else |SplitSpaces(rows[0])|
  }

  /**
    A later row with more tokens than the first makes `problems[columnIndex]` undefined,
    and the push on it throws.
   */
  predicate FitsFirstRow(rows: seq<string>)
  {
    forall r :: 0 <= r < |rows| ==> |SplitSpaces(rows[r])| <= Width(rows)
  }

  /** Problem k's numbers: the k-th token of every row that has one, top to bottom. */
  function ColumnEntries(rows: seq<string>, k: nat): seq<Num>
  {
    if |rows| == 0 then []
    else
      var tokens := SplitSpaces(rows[|rows| - 1]);
      ColumnEntries(rows[..|rows| - 1], k) + (if k < |tokens| then [Number(tokens[k])] else [])
  }

  lemma ColumnEntriesStep(rows: seq<string>, i: nat, k: nat)
    requires i < |rows|
    ensures var tokens := SplitSpaces(rows[i]);
      ColumnEntries(rows[..i + 1], k) == ColumnEntries(rows[..i], k) + (if k < |tokens| then [Number(tokens[k])] else [])
  {
    assert rows[..i + 1][..i] == rows[..i];
  }

  /** Every problem the first row opens holds at least the first row's number. */
  lemma {:induction false} ColumnEntriesStart(rows: seq<string>, k: nat)
    requires k < Width(rows)
    ensures |ColumnEntries(rows, k)| >= 1
    ensures ColumnEntries(rows, k)[0] == Number(SplitSpaces(rows[0])[k])
  {
    if |rows| > 1 {
      var front := rows[..|rows| - 1];
      assert front[0] == rows[0];
      ColumnEntriesStart(front, k);
    }
  }

  /** When every row has a k-th token, problem k holds exactly those tokens' numbers. */
  lemma {:induction false} ColumnEntriesOfFullRows(rows: seq<string>, k: nat)
    requires forall r :: 0 <= r < |rows| ==> k < |SplitSpaces(rows[r])|
    ensures |ColumnEntries(rows, k)| == |rows|
    ensures forall r :: 0 <= r < |rows| ==> ColumnEntries(rows, k)[r] == Number(SplitSpaces(rows[r])[k])
  {
    if |rows| > 0 {
      var front := rows[..|rows| - 1];
      ColumnEntriesOfFullRows(front, k);
    }
  }

  /** A problem never has more numbers than there are rows. */
  lemma {:induction false} ColumnEntriesAtMostRows(rows: seq<string>, k: nat)
    ensures |ColumnEntries(rows, k)| <= |rows|
  {
    if |rows| > 0 {
      ColumnEntriesAtMostRows(rows[..|rows| - 1], k);
    }
  }

  /** Part one's problems: one per token of the first row. */
  function Columns(rows: seq<string>): (problems: seq<seq<Num>>)
    ensures |problems| == Width(rows)
    ensures forall k :: 0 <= k < |problems| ==> problems[k] == ColumnEntries(rows, k)
  {
    seq(Width(rows), k requires 0 <= k < Width(rows) => ColumnEntries(rows, k))
  }

  /** Part one's answer. */
  function PartOne(lines: seq<string>): Outcome
  {
    var rows := ProblemRows(lines);
    if FitsFirstRow(rows) then GrandTotal(Columns(rows), Operators(lines)) else Thrown
  }

  /**
    Part one throws exactly when a later row has more tokens than the first; otherwise
    its answer is the sum of the problem values.
   */
  lemma PartOneMeaning(lines: seq<string>)
    ensures var rows := ProblemRows(lines);
      PartOne(lines).Thrown? <==> !FitsFirstRow(rows)
    ensures var rows := ProblemRows(lines);
      FitsFirstRow(rows) ==>
        (forall k :: 0 <= k < Width(rows) ==> |ColumnEntries(rows, k)| >= 1)
        && PartOne(lines) == Total(SumOfNums(ProblemValues(Columns(rows), Operators(lines))))
  {
    var rows := ProblemRows(lines);
    var problems := Columns(rows);
    forall k | 0 <= k < |problems| ensures |problems[k]| >= 1 {
      ColumnEntriesStart(rows, k);
    }
    GrandTotalThrows(problems, Operators(lines));
    GrandTotalIsSum(problems, Operators(lines));
  }

  lemma OpenProblemsStep(rows: seq<string>, built: seq<seq<Num>>)
    requires |rows| >= 1
    requires |built| == |SplitSpaces(rows[0])|
    requires forall k :: 0 <= k < |built| ==> built[k] == [Number(SplitSpaces(rows[0])[k])]
    ensures |built| == Width(rows)
    ensures forall k :: 0 <= k < |built| ==> built[k] == ColumnEntries(rows[..1], k)
  {
    forall k | 0 <= k < |built| ensures built[k] == ColumnEntries(rows[..1], k) {
      ColumnEntriesStep(rows, 0, k);
      assert rows[..0] == [];
    }
  }

  lemma AppendRowStep(rows: seq<string>, i: nat, built: seq<seq<Num>>, next: seq<seq<Num>>)
    requires 0 < i < |rows|
    requires forall k :: 0 <= k < |built| ==> built[k] == ColumnEntries(rows[..i], k)
    requires |next| == |built|
    requires forall k :: 0 <= k < |built| ==>
      next[k] == built[k] + (if k < |SplitSpaces(rows[i])| then [Number(SplitSpaces(rows[i])[k])] else [])
    ensures forall k :: 0 <= k < |next| ==> next[k] == ColumnEntries(rows[..i + 1], k)
  {
    forall k | 0 <= k < |next| ensures next[k] == ColumnEntries(rows[..i + 1], k) {
      ColumnEntriesStep(rows, i, k);
    }
  }

  /** The first row's `forEach`: one new problem per token. */
  method OpenProblems(columnValues: seq<string>) returns (built: seq<seq<Num>>)
    ensures |built| == |columnValues|
    ensures forall k :: 0 <= k < |built| ==> built[k] == [Number(columnValues[k])]
  {
    built := [];
    for columnIndex := 0 to |columnValues|
      invariant |built| == columnIndex
      invariant forall k :: 0 <= k < columnIndex ==> built[k] == [Number(columnValues[k])]
    {
      built := built + [[Number(columnValues[columnIndex])]];
    }
  }

  /**
    A later row's `forEach`: token k is pushed onto problem k; None when a token has no
    problem to go to.
   */
  method AppendRow(built: seq<seq<Num>>, columnValues: seq<string>) returns (next: Option<seq<seq<Num>>>)
    ensures next.Some? <==> |columnValues| <= |built|
    ensures next.Some? ==> |next.value| == |built|
    ensures next.Some? ==> forall k :: 0 <= k < |built| ==>
      next.value[k] == built[k] + (if k < |columnValues| then [Number(columnValues[k])] else [])
  {
    var problems := built;
    for columnIndex := 0 to |columnValues|
      invariant |problems| == |built|
      invariant columnIndex <= |built|
      invariant forall k :: 0 <= k < columnIndex ==> problems[k] == built[k] + [Number(columnValues[k])]
      invariant forall k :: columnIndex <= k < |built| ==> problems[k] == built[k]
    {
      if columnIndex >= |problems| {
        return None;
      }
      problems := problems[columnIndex := problems[columnIndex] + [Number(columnValues[columnIndex])]];
    }
    return Some(problems);
  }

  /** The nested `forEach` loops that build the problems, or None when a push throws. */
  method BuildProblems(problemRows: seq<string>) returns (problems: Option<seq<seq<Num>>>)
    ensures problems.Some? <==> FitsFirstRow(problemRows)
    ensures problems.Some? ==> problems.value == Columns(problemRows)
  {
    var built: seq<seq<Num>> := [];
    for rowIndex := 0 to |problemRows|
      invariant |built| == if rowIndex == 0 then 0 else Width(problemRows)
      invariant forall k :: 0 <= k < |built| ==> built[k] == ColumnEntries(problemRows[..rowIndex], k)
      invariant forall r :: 0 <= r < rowIndex ==> |SplitSpaces(problemRows[r])| <= Width(problemRows)
    {
      var columnValues := SplitSpaces(problemRows[rowIndex]);
      if rowIndex == 0 {
        built := OpenProblems(columnValues);
        OpenProblemsStep(problemRows, built);
      } else {
        var next := AppendRow(built, columnValues);
        if next.None? {
          return None;
        }
        AppendRowStep(problemRows, rowIndex, built, next.value);
        built := next.value;
      }
    }
    assert problemRows[..|problemRows|] == problemRows;
    return Some(built);
  }

  /** Part one from the worksheet's lines. */
  method SolvePartOne(lines: seq<string>) returns (result: Outcome)
    ensures result == PartOne(lines)
  {
    var problems := BuildProblems(ProblemRows(lines));
    if problems.None? {
      return Thrown;
    }
    result := GrandTotal(problems.value, Operators(lines));
  }

  // ---------------------------------------------------------------------------------
  // Part two: numbers down the character positions

  /** `row[p]`: a character, or undefined (None) past the end of the row. */
  function CharAt(row: string, p: nat): Option<char>
  {
    if p < |row| then Some(row[p]) else None
  }

  /**
    The cells at position p that are not a space, top to bottom. Undefined is kept,
    because `undefined !== " "` holds.
   */
  function ColumnCells(rows: seq<string>, p: nat): seq<Option<char>>
  {
    if |rows| == 0 then []
    else
      var cell := CharAt(rows[|rows| - 1], p);
      ColumnCells(rows[..|rows| - 1], p) + (if cell != Some(' ') then [cell] else [])
  }

  /** `join("")`: an undefined cell joins as the empty string. */
  function JoinCells(cells: seq<Option<char>>): string
  {
    if |cells| == 0 then []
    else JoinCells(cells[..|cells| - 1]) + (if cells[|cells| - 1].Some? then [cells[|cells| - 1].value] else [])
  }

  /**
    A position is blank exactly when every row has a space there. A row that is too short
    does not count as a space.
   */
  lemma {:induction false} BlankIffAllSpaces(rows: seq<string>, p: nat)
    ensures |ColumnCells(rows, p)| == 0 <==> forall r :: 0 <= r < |rows| ==> CharAt(rows[r], p) == Some(' ')
  {
    if |rows| > 0 {
      var front := rows[..|rows| - 1];
      BlankIffAllSpaces(front, p);
      assert forall r :: 0 <= r < |front| ==> front[r] == rows[r];
    }
  }

  /** The characters of the rows at position p, top to bottom. */
  function CharsAt(rows: seq<string>, p: nat): (s: string)
    requires forall r :: 0 <= r < |rows| ==> p < |rows[r]|
    ensures |s| == |rows| && forall r :: 0 <= r < |rows| ==> s[r] == rows[r][p]
  {
    if |rows| == 0 then [] else CharsAt(rows[..|rows| - 1], p) + [rows[|rows| - 1][p]]
  }

  /** The characters other than c, in order. */
  function WithoutChar(s: string, c: char): (r: string)
    ensures c !in r
  {
    if |s| == 0 then [] else WithoutChar(s[..|s| - 1], c) + (if s[|s| - 1] == c then [] else [s[|s| - 1]])
  }

  /**
    When every row reaches position p, the text read there is the rows' characters at p,
    top to bottom, with the spaces left out.
   */
  lemma {:induction false} JoinCellsOfFullRows(rows: seq<string>, p: nat)
    requires forall r :: 0 <= r < |rows| ==> p < |rows[r]|
    ensures JoinCells(ColumnCells(rows, p)) == WithoutChar(CharsAt(rows, p), ' ')
  {
    if |rows| > 0 {
      var front := rows[..|rows| - 1];
      JoinCellsOfFullRows(front, p);
      var all := CharsAt(rows, p);
      assert all[..|rows| - 1] == CharsAt(front, p);
      var cells := ColumnCells(rows, p);
      var cell := CharAt(rows[|rows| - 1], p);
      if cell != Some(' ') {
        assert cells == ColumnCells(front, p) + [cell];
        assert cells[..|cells| - 1] == ColumnCells(front, p);
      } else {
        assert cells == ColumnCells(front, p);
        assert WithoutChar(all, ' ') == WithoutChar(CharsAt(front, p), ' ');
      }
    }
  }

  /** `Math.max(...lengths)`, with the loop over no rows running zero times. */
  function MaxWidth(rows: seq<string>): (w: nat)
    ensures forall r :: 0 <= r < |rows| ==> |rows[r]| <= w
    ensures |rows| > 0 ==> exists r :: 0 <= r < |rows| && |rows[r]| == w
    ensures |rows| == 0 ==> w == 0
  {
    if |rows| == 0 then 0
    else
      var w := MaxWidth(rows[..|rows| - 1]);
      if |rows[|rows| - 1]| > w then |rows[|rows| - 1]| else
        assert forall r :: 0 <= r < |rows| - 1 ==> rows[..|rows| - 1][r] == rows[r];
        w
  }

  /** The number read at position p. */
  function NumberAt(rows: seq<string>, p: nat): Num
  {
    Number(JoinCells(ColumnCells(rows, p)))
  }

  /** The closed problems and the current problem after positions 0 .. p - 1. */
  function Scan(rows: seq<string>, p: nat): (seq<seq<Num>>, seq<Num>)
  {
    if p == 0 then ([], [])
    else
      var (all, current) := Scan(rows, p - 1);
      if |ColumnCells(rows, p - 1)| > 0 then (all, current + [NumberAt(rows, p - 1)])
      else (all + [current], [])
  }

  /** Part two's problems: the closed ones, then the last one when it is not empty. */
  function VerticalProblems(rows: seq<string>): seq<seq<Num>>
  {
    var (all, current) := Scan(rows, MaxWidth(rows));
    if |current| > 0 then all + [current] else all
  }

  /** The numbers read at the non-blank positions before p, in order. */
  function PositionNumbers(rows: seq<string>, p: nat): seq<Num>
  {
    if p == 0 then []
    else PositionNumbers(rows, p - 1) + (if |ColumnCells(rows, p - 1)| > 0 then [NumberAt(rows, p - 1)] else [])
  }

  /** The number of blank positions before p. */
  function BlankCount(rows: seq<string>, p: nat): nat
  {
    if p == 0 then 0 else BlankCount(rows, p - 1) + (if |ColumnCells(rows, p - 1)| > 0 then 0 else 1)
  }

  function Flatten<T>(xss: seq<seq<T>>): seq<T>
  {
    if |xss| == 0 then [] else Flatten(xss[..|xss| - 1]) + xss[|xss| - 1]
  }

  /**
    The scan loses and invents no number: the closed problems followed by the current one
    are the numbers of all non-blank positions so far, and each blank position closes
    exactly one problem.
   */
  lemma {:induction false} ScanPartitions(rows: seq<string>, p: nat)
    ensures Flatten(Scan(rows, p).0) + Scan(rows, p).1 == PositionNumbers(rows, p)
    ensures |Scan(rows, p).0| == BlankCount(rows, p)
  {
    if p > 0 {
      ScanPartitions(rows, p - 1);
      var (all, current) := Scan(rows, p - 1);
      if |ColumnCells(rows, p - 1)| == 0 {
        assert (all + [current])[..|all|] == all;
      }
    }
  }

  /** The closed problems only grow: problem j after q positions is problem j after p >= q. */
  lemma {:induction false} ScanKeepsClosed(rows: seq<string>, q: nat, p: nat, j: nat)
    requires q <= p && j < |Scan(rows, q).0|
    ensures j < |Scan(rows, p).0| && Scan(rows, p).0[j] == Scan(rows, q).0[j]
    decreases p - q
  {
    if q < p {
      ScanStepKeepsClosed(rows, q + 1, j);
      ScanKeepsClosed(rows, q + 1, p, j);
    }
  }

  /** One position keeps every closed problem. */
  lemma ScanStepKeepsClosed(rows: seq<string>, p: nat, j: nat)
    requires p > 0 && j < |Scan(rows, p - 1).0|
    ensures j < |Scan(rows, p).0| && Scan(rows, p).0[j] == Scan(rows, p - 1).0[j]
  {
  }

  /** The blank at position q closes problem number BlankCount(rows, q) right there. */
  lemma BlankClosesProblem(rows: seq<string>, q: nat)
    requires |ColumnCells(rows, q)| == 0
    ensures Scan(rows, q + 1).0 == Scan(rows, q).0 + [Scan(rows, q).1]
    ensures |Scan(rows, q + 1).0| == BlankCount(rows, q) + 1
    ensures Flatten(Scan(rows, q + 1).0) == PositionNumbers(rows, q)
  {
    var (all, current) := Scan(rows, q);
    ScanPartitions(rows, q);
    assert (all + [current])[..|all|] == all;
  }

  /**
    Where the scan cuts: the blank at position q closes problem number BlankCount(rows, q),
    so the closed problems up to and including that one hold exactly the numbers read
    before q.
   */
  lemma ScanCutsAtBlanks(rows: seq<string>, p: nat, q: nat)
    requires q < p && |ColumnCells(rows, q)| == 0
    ensures BlankCount(rows, q) < |Scan(rows, p).0|
    ensures Flatten(Scan(rows, p).0[..BlankCount(rows, q) + 1]) == PositionNumbers(rows, q)
  {
    BlankClosesProblem(rows, q);
    var closed := Scan(rows, q + 1).0;
    ScanKeepsClosed(rows, q + 1, p, |closed| - 1);
    forall j | 0 <= j < |closed|
      ensures Scan(rows, p).0[j] == closed[j]
    {
      ScanKeepsClosed(rows, q + 1, p, j);
    }
    assert Scan(rows, p).0[..BlankCount(rows, q) + 1] == closed;
  }

  lemma FlattenPrefixStep<T>(xss: seq<seq<T>>, j: nat)
    requires j < |xss|
    ensures Flatten(xss[..j + 1]) == Flatten(xss[..j]) + xss[j]
  {
    assert xss[..j + 1][..j] == xss[..j];
  }

  /** Piece k is what the flattening of k + 1 pieces adds to that of k pieces. */
  lemma PieceOfFlattenedPrefixes<T>(xss: seq<seq<T>>, k: nat, u: seq<T>, v: seq<T>)
    requires k < |xss| && Flatten(xss[..k]) == u && Flatten(xss[..k + 1]) == v
    ensures |u| <= |v| && xss[k] == v[|u|..]
  {
    FlattenPrefixStep(xss, k);
  }

  /** The first closed problem holds the numbers read before the first blank. */
  lemma FirstProblemBeforeFirstBlank(rows: seq<string>, p: nat, q: nat)
    requires q < p && |ColumnCells(rows, q)| == 0 && BlankCount(rows, q) == 0
    ensures |Scan(rows, p).0| > 0 && Scan(rows, p).0[0] == PositionNumbers(rows, q)
  {
    ScanCutsAtBlanks(rows, p, q);
    FlattenPrefixStep(Scan(rows, p).0, 0);
  }

  /**
    Every later closed problem holds exactly the numbers read between two consecutive
    blanks q1 < q2: those read before q2 that were not read before q1.
   */
  lemma ProblemBetweenBlanks(rows: seq<string>, p: nat, q1: nat, q2: nat)
    requires q1 < q2 < p && |ColumnCells(rows, q1)| == 0 && |ColumnCells(rows, q2)| == 0
    requires BlankCount(rows, q2) == BlankCount(rows, q1) + 1
    ensures var all := Scan(rows, p).0;
      BlankCount(rows, q2) < |all| && |PositionNumbers(rows, q1)| <= |PositionNumbers(rows, q2)| &&
      all[BlankCount(rows, q2)] == PositionNumbers(rows, q2)[|PositionNumbers(rows, q1)|..]
  {
    ScanCutsAtBlanks(rows, p, q1);
    ScanCutsAtBlanks(rows, p, q2);
    PieceOfFlattenedPrefixes(Scan(rows, p).0, BlankCount(rows, q2), PositionNumbers(rows, q1), PositionNumbers(rows, q2));
  }

  /**
    The open problem holds the numbers read after the last blank before p: with q the last
    blank, they are the numbers read before p that were not read before q.
   */
  lemma OpenProblemAfterLastBlank(rows: seq<string>, p: nat, q: nat)
    requires q < p && |ColumnCells(rows, q)| == 0 && BlankCount(rows, q) + 1 == BlankCount(rows, p)
    ensures |PositionNumbers(rows, q)| <= |PositionNumbers(rows, p)|
    ensures Scan(rows, p).1 == PositionNumbers(rows, p)[|PositionNumbers(rows, q)|..]
  {
    var (all, current) := Scan(rows, p);
    ScanPartitions(rows, p);
    ScanCutsAtBlanks(rows, p, q);
    assert all[..BlankCount(rows, q) + 1] == all;
  }

  /** Without a blank before p there is no closed problem and everything read is open. */
  lemma OpenProblemWithoutBlank(rows: seq<string>, p: nat)
    requires BlankCount(rows, p) == 0
    ensures Scan(rows, p).0 == [] && Scan(rows, p).1 == PositionNumbers(rows, p)
  {
    ScanPartitions(rows, p);
  }

  /** Part two's problems hold every number read, in order; only blank positions split them. */
  lemma VerticalProblemsPartition(rows: seq<string>)
    ensures Flatten(VerticalProblems(rows)) == PositionNumbers(rows, MaxWidth(rows))
    ensures var current := Scan(rows, MaxWidth(rows)).1;
      |VerticalProblems(rows)| == BlankCount(rows, MaxWidth(rows)) + (if |current| > 0 then 1 else 0)
    ensures var (all, current) := Scan(rows, MaxWidth(rows));
      all <= VerticalProblems(rows) &&
      (|current| > 0 ==> VerticalProblems(rows)[|VerticalProblems(rows)| - 1] == current)
  {
    var (all, current) := Scan(rows, MaxWidth(rows));
    ScanPartitions(rows, MaxWidth(rows));
    if |current| > 0 {
      assert (all + [current])[..|all|] == all;
    }
  }

  /** A blank first position closes an empty problem, so part two throws. */
  lemma LeadingBlankThrows(lines: seq<string>)
    requires var rows := ProblemRows(lines); MaxWidth(rows) > 0 && |ColumnCells(rows, 0)| == 0
    ensures GrandTotal(VerticalProblems(ProblemRows(lines)), Operators(lines)) == Thrown
  {
    var rows := ProblemRows(lines);
    var problems := VerticalProblems(rows);
    ScanHead(rows, MaxWidth(rows));
    GrandTotalThrows(problems, Operators(lines));
    assert |problems[0]| == 0;
  }

  /** After a blank first position the first closed problem is empty. */
  lemma {:induction false} ScanHead(rows: seq<string>, p: nat)
    requires p > 0 && |ColumnCells(rows, 0)| == 0
    ensures |Scan(rows, p).0| >= 1 && Scan(rows, p).0[0] == []
  {
    if p > 1 {
      ScanHead(rows, p - 1);
    }
  }

  /** The inner `forEach`: the cells at one position that are not a space. */
  method DigitsAt(problemRows: seq<string>, characterPosition: nat) returns (digitsAtCharacterPosition: seq<Option<char>>)
    ensures digitsAtCharacterPosition == ColumnCells(problemRows, characterPosition)
  {
    digitsAtCharacterPosition := [];
    for r := 0 to |problemRows|
      invariant digitsAtCharacterPosition == ColumnCells(problemRows[..r], characterPosition)
    {
      assert problemRows[..r + 1][..r] == problemRows[..r];
      var comparisonCharacter := CharAt(problemRows[r], characterPosition);
      if comparisonCharacter != Some(' ') {
        digitsAtCharacterPosition := digitsAtCharacterPosition + [comparisonCharacter];
      }
    }
    assert problemRows[..|problemRows|] == problemRows;
  }

  /** The character-position loop and the push of the last problem. */
  method ReadVertically(problemRows: seq<string>) returns (allProblems: seq<seq<Num>>)
    ensures allProblems == VerticalProblems(problemRows)
  {
    allProblems := [];
    var currentProblem: seq<Num> := [];
    var problemRowsMaxWidth := MaxWidth(problemRows);
    for characterPosition := 0 to problemRowsMaxWidth
      invariant (allProblems, currentProblem) == Scan(problemRows, characterPosition)
    {
      var digitsAtCharacterPosition := DigitsAt(problemRows, characterPosition);
      if |digitsAtCharacterPosition| > 0 {
        currentProblem := currentProblem + [Number(JoinCells(digitsAtCharacterPosition))];
      } else {
        allProblems := allProblems + [currentProblem];
        currentProblem := [];
      }
    }
    if |currentProblem| > 0 {
      allProblems := allProblems + [currentProblem];
    }
  }

  /** Part two from the worksheet's lines. */
  method SolvePartTwo(lines: seq<string>) returns (result: Outcome)
    ensures result == GrandTotal(VerticalProblems(ProblemRows(lines)), Operators(lines))
  {
    var allProblems := ReadVertically(ProblemRows(lines));
    result := GrandTotal(allProblems, Operators(lines));
  }
}
