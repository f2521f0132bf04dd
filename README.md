# Advent of Code 2025, days 1 to 10, in Dafny

This project models the TypeScript solutions to the first ten puzzles of Advent of Code
2025 and proves what their answers mean. Each puzzle reads its input, computes with loops
and maps, and logs a number. Here the logging becomes a return value and the puzzle input
becomes a parameter. Each loop becomes a Dafny method with invariants, proved against a
specification function. Lemmas then prove what that function means.

- `js_text.dfy` (module `JsText`) holds the JavaScript string operations the solutions
  rely on:
  - `Number`, as `Option<nat>`, where `None` is NaN;
  - `indexOf`, `slice`, `split`, `join` and `trim`;
  - the whitespace split `split(/\s+/)`;
  - decimal formatting, and a sum.
- `dial.dfy`: day 1. A dial with the numbers 0 to 99 turns left and right. Part one
  counts the turns that stop on 0. Part two counts every click onto 0.
- `repeated_ids.dfy`: day 2. Counts and sums the ids in ranges that are one digit
  pattern repeated: twice in part one, with lookahead splitting in part two. Part two
  is proved to push an id exactly once when its digits are any shorter pattern repeated.
- `joltage.dfy`: day 3. The largest two-digit number, and the largest twelve-digit number,
  that a bank of digit batteries can form with its digits kept in order.
- `paper_rolls.dfy`: day 4, part two. Rolls with fewer than four neighbouring rolls are
  removed, round after round, on the diagram array in place.
- `fresh_ranges.dfy`: day 5.
  - Part one: which available ids fall in some range.
  - Part two: how many ids the ranges cover, after sorting and merging them.
- `worksheet.dfy`: day 6. The problems of a worksheet in columns, summed or multiplied.
  Part one reads them by whitespace; part two reads digits vertically.
- `beams.dfy` and `path_count.dfy`: day 7.
  - Part one: beams split at `^` splitters, and the splits are counted.
  - Part two: a memoised recursion counts the paths of one particle, in a class that owns
    the memo map.
- `pair_order.dfy`: the enumeration of index pairs `i < j` that days 8 and 9 share.
- `circuits.dfy`: day 8, part two. The boxes pair by pair, with a map-based union-find in
  a class. The model shows that the product is logged exactly once exactly when there are
  two or more distinct boxes.
- `red_tiles.dfy`: day 9.
  - Part one: the largest rectangle with red tiles at opposite corners.
  - Part two: the vertex reduction of the polygon walk (`9/9b.ts` as far as it goes).
- `machines.dfy`: day 10, part one, up to the echelon form.
  - The parse of a machine line, proved to undo the line's formatting.
  - The GF(2) matrix of lights and buttons.
  - Gaussian elimination to a proved row-echelon form, with the same button choices
    reaching the target lights as the matrix it starts from.

The modules follow the solution files, one per day. The shared text helpers and the pair
enumeration are the two exceptions.

## Model

| member | source | states |
|---|---|---|
| Dial.JsRem100 | 1/1b.ts:36 | the truncating `%` of JavaScript: the remainder keeps the sign of the dividend, lies strictly between -100 and 100, and differs from the dividend by a multiple of 100 |
| Dial.ChangeAmountOfRotation | 1/1a.ts:6-14 | for every n, `L` followed by n's digits is the change -n and `R` followed by n's digits is +n |
| Dial.ChangeAmountVectors | 1/1b.test.ts:13-31 | the change amounts of the test table (`L1` to -1, `R1234` to 1234, `L0` to 0, …) |
| Dial.NewValue | 1/1a.ts:16-18 | the new reading lies in 0..99 and is the old reading plus the change, modulo 100 |
| Dial.NewValueVectors | 1/1b.test.ts:33-43 | the new readings of the test table (50 and 25 give 75, 99 and 99 give 98, 0 and -10 give 90, …) |
| Dial.ReadingAfter | 1/1a.ts:20-24 | the reading after any sequence of operations stays in 0..99 |
| Dial.ZeroStopsAtMostOperations | 1/1a.ts:20-32 | part one never counts more stops on 0 than there are operations |
| Dial.CountZeroStops | 1/1a.ts:20-32 | the reduce over the operations returns the number of operations after which the dial reads 0, which is at most the number of operations |
| Dial.PartialLoopAcrossZero | 1/1b.ts:20-31 | the partial turn crosses 0 exactly when the dial does not start on 0 and the unreduced sum leaves 0..100; it never holds when starting on 0 |
| Dial.PartialLoopVectors | 1/1b.test.ts:45-57 | the test table of partial loops (50 with -51 and with 51 cross, 50 with -1 does not) |
| Dial.ZeroClicksUp | 1/1b.ts:37-50 | turning right, the clicks landing on 0 number `(current + change) / 100` |
| Dial.ZeroClicksDown | 1/1b.ts:37-50 | turning left, the clicks landing on 0 number `(current - 1) / 100 - (current + change - 1) / 100` |
| Dial.CountIncrement | 1/1b.ts:34-50 | the per-operation increment is at least the number of whole turns in the change |
| Dial.CountIncrementAgainstClicks | 1/1b.ts:34-50 | the increment as written equals the true number of clicks onto 0, plus one exactly when the dial starts on 0 and the change is a multiple of 100 |
| Dial.CountIncrementOvercountExample | 1/1b.ts:40-50 | at 0, `R100` is counted twice but clicks onto 0 once |
| Dial.CorrectedIncrementIsZeroClicks | 1/1b.ts:34-50 | the corrected increment equals the true number of clicks onto 0, from every reading and for every change |
| Dial.ZeroPassesAgainstClicks | 1/1b.ts:33-67 | part two's total is the true number of clicks onto 0 plus the operations that start on 0 and turn by a multiple of 100 |
| Dial.CountZeroPasses | 1/1b.ts:33-67 | the loop returns part two's total, which is the true click count plus those double counts |
| RepeatedIds.RangeBoundsOfRange | 2/2a.ts:11-15 | the text `lo-hi` of two decimal numbers parses back to `(lo, hi)` |
| RepeatedIds.RepeatedHalvesIff | 2/2a.ts:21-28 | an id is rejected in part one exactly when its decimal text is some string written twice |
| RepeatedIds.OddLengthIsValid | 2/2a.ts:20-23 | an id with an odd number of digits is never rejected |
| RepeatedIds.HalvesInSound | 2/2a.ts:19-31 | every id pushed for a range lies in the range and has two equal halves |
| RepeatedIds.HalvesInComplete | 2/2a.ts:19-31 | every id in the range with two equal halves is pushed |
| RepeatedIds.HalvesInAscending | 2/2a.ts:19 | the ids pushed for a range strictly ascend, so none is pushed twice |
| RepeatedIds.RangeHalves | 2/2a.ts:19-31 | the loop over one range pushes exactly the ids with equal halves |
| RepeatedIds.SumRepeatedHalves | 2/2a.ts:3-39 | part one collects the pushes of every comma-separated range and returns their sum |
| RepeatedIds.SumOf | 2/2a.ts:34-39 | the reduce returns the sum of the ids |
| RepeatedIds.DivisorsUpToSound | 2/2b.ts:21-25 | every candidate pattern length divides the length of the id and lies in 1..m |
| RepeatedIds.DivisorsUpToComplete | 2/2b.ts:21-25 | every divisor of the length in 1..m is a candidate |
| RepeatedIds.Divisors | 2/2b.ts:18-25 | the loop lists exactly the divisors of the length from 1 to half the length |
| RepeatedIds.SingleDigitHasNoDivisors | 2/2b.ts:21 | a one-digit id has no candidate pattern length |
| RepeatedIds.NextCut | 2/2b.ts:33-35 | the cut is the first position from `from` on where the pattern starts, or the end of the text |
| RepeatedIds.LookaheadSplitConcat | 2/2b.ts:33-35 | splitting at the lookahead for the pattern loses no character: the pieces join back to the id |
| RepeatedIds.ConcatAllEqual | 2/2b.ts:36-38 | pieces that all equal the pattern join to the pattern repeated once per piece |
| RepeatedIds.AcceptedIsRepetition | 2/2b.ts:29-40 | an accepted pattern length k makes the id its first k digits repeated |
| RepeatedIds.OverlappingPatternRejected | 2/2b.ts:33-40 | `1111` is `11` twice, yet pattern length 2 is rejected, because the lookahead splits at every position where `11` starts |
| RepeatedIds.PushesForOnlyId | 2/2b.ts:28-43 | the checks of one id only ever push that id |
| RepeatedIds.PushedIsRepetition | 2/2b.ts:28-43 | an id that is pushed is a shorter digit pattern repeated at least twice |
| RepeatedIds.RepeatSplitsIntoCopies | 2/2b.ts:33-38 | a pattern that does not occur inside itself written twice, repeated m times, splits into m copies of itself |
| RepeatedIds.RepetitionHasAcceptedLength | 2/2b.ts:18-40 | digits that are a shorter pattern repeated have an accepted candidate pattern length, the length of the shortest such pattern |
| RepeatedIds.AcceptedIsUnique | 2/2b.ts:28-40 | no two candidate pattern lengths of the same id are both accepted |
| RepeatedIds.PatternPushesExact | 2/2b.ts:18-43 | the checks push an id exactly once when its digits are a shorter pattern repeated at least twice, and never otherwise |
| RepeatedIds.PatternsInSound | 2/2b.ts:17-44 | every id pushed for a range lies in the range and is a pattern repeated at least twice |
| RepeatedIds.PatternsInComplete | 2/2b.ts:17-44 | every id in the range that is a pattern repeated at least twice is pushed |
| RepeatedIds.PatternsInAscending | 2/2b.ts:17-44 | the ids pushed for a range strictly ascend, so none is pushed twice |
| RepeatedIds.CheckId | 2/2b.ts:18-43 | the loop over the divisors pushes what the specification of one id pushes |
| RepeatedIds.RangePatterns | 2/2b.ts:17-44 | the loop over one range pushes the ids the specification gives |
| RepeatedIds.SumRepeatedPatterns | 2/2b.ts:3-52 | part two collects the pushes of every range and returns their sum |
| Joltage.PairValueIsNumber | 3/3a.ts:12 | the value of two batteries is `Number` of their two digits |
| Joltage.BankMaxIsLargestPair | 3/3a.ts:10-16 | a bank's output is at least the value of every ordered pair of batteries and equals one of them; a bank of fewer than two batteries gives 0 |
| Joltage.HighCombination | 3/3a.ts:7-16 | the nested loops return the largest value of an ordered pair of batteries |
| Joltage.MaxOutput | 3/3a.ts:6-26 | part one gives every bank's largest pair and their sum |
| Joltage.FirstMaxIndex | 3/3b.ts:43-52 | the index holds the window's largest digit, and no earlier index does |
| Joltage.FirstMaxIndexUnique | 3/3b.ts:43-52 | an index with those two properties is the one this function returns |
| Joltage.LeftPointer | 3/3b.ts:43-52 | the scan for the left pointer returns the first largest digit of the window |
| Joltage.Picks | 3/3b.ts:38-68 | one position is picked per remaining digit, and the t-th pick leaves room for the digits after it |
| Joltage.PicksAscending | 3/3b.ts:67 | the picked positions strictly ascend |
| Joltage.SelectedAtPicks | 3/3b.ts:64 | the selected digits are the bank's digits at the picked positions |
| Joltage.GreedySequence | 3/3b.ts:34-68 | the greedy loop builds the greedy selection of `sequenceLength` digits |
| Joltage.GreedyIsLexMax | 3/3b.ts:23-25 | the greedy selection is lexicographically at least every choice of digits kept in order |
| Joltage.SequenceValueIsLargest | 3/3b.ts:8-32 | the number the greedy selection forms is at least the number of every in-order choice of the same length |
| Joltage.GreedyIsSelection | 3/3b.ts:34-68 | the greedy picks are an in-order choice of positions, and the selected digits are the bank's digits at them |
| Joltage.BankSequenceNumber | 3/3b.ts:70 | `Number` of the joined selection is the selection's decimal value |
| Joltage.MaxSequenceOutput | 3/3b.ts:7-75 | part two gives every bank's greedy number and their sum |
| PaperRolls.DirectionsAreTheEightNeighbours | 4/4b.ts:6-10 | the eight directions are distinct and are exactly the non-zero offsets in -1..1 |
| PaperRolls.MarksMembership | 4/4b.ts:19-56 | a cell is marked exactly when it is a roll with fewer than four neighbouring rolls |
| PaperRolls.RoundRemovesMarks | 4/4b.ts:58-64 | one round removes exactly as many rolls as it marked |
| PaperRolls.ErodeFullyIsStable | 4/4b.ts:14-65 | after the last round no cell is marked, so every remaining roll has at least four neighbouring rolls |
| PaperRolls.ErodeFullyOnlyRemovesRolls | 4/4b.ts:14-65 | the rounds keep the diagram's shape and only turn rolls into empty cells |
| PaperRolls.ErodeFullyRemovesRolls | 4/4b.ts:14-65 | the rounds never add rolls |
| PaperRolls.ApplyAllCells | 4/4b.ts:58-64 | applying marks empties exactly the marked cells and leaves every other cell |
| PaperRolls.ApplyMarksIsRound | 4/4b.ts:58-64 | applying a round's marks gives that round's diagram |
| PaperRolls.MarksInRange | 4/4b.ts:52 | every mark lies inside the diagram |
| PaperRolls.CountAdjacent | 4/4b.ts:25-49 | the loop over the directions counts the neighbouring rolls |
| PaperRolls.FindMarks | 4/4b.ts:17-56 | the scan of the diagram collects the marks in row order |
| PaperRolls.ApplyMarks | 4/4b.ts:58-64 | the loop empties the marked cells of the array in place |
| PaperRolls.RemoveRolls | 4/4b.ts:11-65 | the rounds leave the array fully eroded and return the number of rolls removed |
| FreshRanges.ParseBoundsOfRange | 5/5a.ts:9-12 | the text `lo-hi` parses back to its two numbers |
| FreshRanges.FreshIdsMembership | 5/5a.ts:15-22 | an id is kept exactly when it is available and falls in some range |
| FreshRanges.FreshIdsWithinIds | 5/5a.ts:15-22 | the kept ids are a sub-multiset of the available ids |
| FreshRanges.ParseRanges | 5/5a.ts:8-13 | every range text is parsed, in order |
| FreshRanges.AnyRangeHolds | 5/5a.ts:16-21 | `some` returns true exactly when the id falls in some parsed range |
| FreshRanges.CountFresh | 5/5a.ts:3-24 | part one keeps exactly the available ids that fall in some range |
| FreshRanges.ParseRangeOfRange | 5/5b.ts:5-9 | the text `lo-hi` is a range text and parses back to `(lo, hi)` |
| FreshRanges.SortByMinSortsAndPermutes | 5/5b.ts:10-15 | the sort orders the ranges by their minimum and permutes them |
| FreshRanges.CoveredOfPermutation | 5/5b.ts:10-15 | ranges that are a permutation of each other cover the same ids |
| FreshRanges.MergeProperties | 5/5b.ts:18-41 | the merge of sorted valid ranges gives valid ranges separated by gaps that cover the same ids |
| FreshRanges.MergeRanges | 5/5b.ts:16-41 | the merging loop returns what the merge specification gives |
| FreshRanges.CountCovered | 5/5b.ts:43-46 | the loop sums the sizes of the merged ranges |
| FreshRanges.RangeSetSize | 5/5b.ts:44-45 | a valid range holds `max - min + 1` ids |
| FreshRanges.SizeSumIsCount | 5/5b.ts:43-46 | for separated valid ranges, the sum of their sizes is the number of ids they cover |
| FreshRanges.CountFreshIds | 5/5b.ts:3-48 | part two returns the size sum of the merged sorted ranges, and throws (None) exactly on empty input |
| FreshRanges.MergedCountsCoveredIds | 5/5b.ts:3-48 | part two's count is the number of distinct ids the input ranges cover |
| Worksheet.FoldMeaning | 6/6a.ts:31-42 | with `+` a problem's value is the sum of its numbers, with `*` their product, and with any other operator the first number |
| Worksheet.GrandTotalThrows | 6/6a.ts:31-42 | the total throws exactly when some problem has no numbers, since `reduce` has no initial value |
| Worksheet.GrandTotalIsSum | 6/6a.ts:31-42 | otherwise the total is the sum of the problem values, with NaN propagating |
| Worksheet.ColumnEntriesStart | 6/6a.ts:20-22 | every column starts with the first row's number in it |
| Worksheet.ColumnEntriesOfFullRows | 6/6a.ts:14-29 | when every row has a k-th token, column k holds the k-th number of every row, in row order |
| Worksheet.ColumnEntriesAtMostRows | 6/6a.ts:14-29 | a column holds at most one number per row |
| Worksheet.Columns | 6/6a.ts:14-29 | there is one problem per token of the first row, and problem k is column k |
| Worksheet.PartOneMeaning | 6/6a.ts:6-42 | part one throws exactly when a later row has more tokens than the first; otherwise it is the sum of the column problems' values |
| Worksheet.OpenProblems | 6/6a.ts:20-22 | the first row opens one problem per token, holding its number |
| Worksheet.AppendRow | 6/6a.ts:25-27 | a later row appends its k-th number to problem k, and throws (None) exactly when it has more tokens than there are problems |
| Worksheet.BuildProblems | 6/6a.ts:14-29 | the loop over the rows builds the column problems, and throws exactly when a row does not fit the first |
| Worksheet.SolvePartOne | 6/6a.ts:6-44 | the program returns part one's result |
| Worksheet.BlankIffAllSpaces | 6/6b.ts:38-47 | a character position gives no digits exactly when every row has a space there |
| Worksheet.JoinCellsOfFullRows | 6/6b.ts:38-48 | when every row reaches the position, the joined digits are the rows' characters there, top to bottom, without the spaces |
| Worksheet.MaxWidth | 6/6b.ts:29-31 | the width is at least every row's length and is some row's length; no rows give 0 |
| Worksheet.ScanPartitions | 6/6b.ts:34-55 | the closed problems followed by the open one are the numbers of all non-blank positions in order, and each blank position closes exactly one problem |
| Worksheet.ScanCutsAtBlanks | 6/6b.ts:46-53 | the blank at position q closes problem number BlankCount(q): the closed problems up to it hold exactly the numbers read before q |
| Worksheet.FirstProblemBeforeFirstBlank | 6/6b.ts:34-55 | the first closed problem holds exactly the numbers read before the first blank |
| Worksheet.ProblemBetweenBlanks | 6/6b.ts:34-55 | the problem closed by a blank holds exactly the numbers read since the previous blank |
| Worksheet.OpenProblemAfterLastBlank | 6/6b.ts:34-55 | the open problem holds exactly the numbers read since the last blank |
| Worksheet.OpenProblemWithoutBlank | 6/6b.ts:34-55 | with no blank yet, nothing is closed and every number read is in the open problem |
| Worksheet.VerticalProblemsPartition | 6/6b.ts:34-60 | the problems read vertically, flattened, are the numbers of all positions in order; there is one per blank, plus the open problem, which comes last, when it is not empty |
| Worksheet.LeadingBlankThrows | 6/6b.ts:50-72 | a blank first position opens an empty problem, so the total throws |
| Worksheet.DigitsAt | 6/6b.ts:35-44 | the loop over the rows collects the non-space characters at the position |
| Worksheet.ReadVertically | 6/6b.ts:32-60 | the position loop builds the vertical problems |
| Worksheet.SolvePartTwo | 6/6b.ts:21-75 | the program returns the total of the vertical problems under their operators |
| Beams.SplitterPositionsExact | 7/7a.ts:19-31 | the indices found are exactly the `^` positions of the row, each once and ascending |
| Beams.FindSplitterIndices | 7/7a.ts:19-31 | the `indexOf` loop returns the splitter positions |
| Beams.AnyBeamAtIff | 7/7a.ts:33-40 | `some` holds exactly when a beam has that X |
| Beams.FirstBeamAt | 7/7a.ts:47-49 | `findIndex` gives a beam at that X with no earlier one |
| Beams.DedupeProperties | 7/7a.ts:70-86 | the deduplicated beams have no repeats and hold exactly the same coordinates |
| Beams.DedupeOfDistinct | 7/7a.ts:70-86 | deduplicating beams without repeats changes nothing |
| Beams.SplitAtProperties | 7/7a.ts:42-87 | after a split no two beams share a coordinate, and the beams are exactly the other beams plus the two new ones beside the split beam, on its row |
| Beams.SplitKeepsOrder | 7/7a.ts:55-68 | when neither neighbour of the split beam exists already, the split replaces the beam by its two neighbours in place |
| Beams.DedupeBeams | 7/7a.ts:70-86 | the loop over the string keys keeps the first occurrence of each coordinate |
| Beams.DedupedAfterSplit | 7/7a.ts:42-87 | the function returns the split beams, deduplicated |
| Beams.SplitRowKeeps | 7/7a.ts:108-121 | a row's splits keep the beams distinct and on the row, and split at most once per splitter |
| Beams.DescendKeepsDistinct | 7/7a.ts:123-126 | moving every beam down keeps them distinct and puts them on the next row |
| Beams.SimulateInvariant | 7/7a.ts:104-129 | after any number of rows the beams are distinct and on the next row, and the splits are at most the splitters seen |
| Beams.SplitThroughRow | 7/7a.ts:108-121 | the loop over a row's splitters gives the beams and the split count of the specification |
| Beams.CountSplits | 7/7a.ts:12-131 | part one throws exactly on an empty manifold; otherwise it returns the simulated split count, at most the number of splitters |
| PathCount.PathsBound | 7/7b.ts:47-79 | from row y there are at most 2 to the power of the rows left paths |
| PathCount.NoSplitterOnePath | 7/7b.ts:59-78 | without splitters below, a particle inside the columns has exactly one path |
| PathCount.PathCounter.constructor | 7/7b.ts:36 | the memo starts empty |
| PathCount.PathCounter.CountPaths | 7/7b.ts:47-79 | the memoised recursion returns the path count, keeps every memo entry correct and forgets none |
| PathCount.NumberOfPaths | 7/7b.ts:36-83 | part two throws exactly on an empty manifold; otherwise it returns the paths from "S", at most 2 to the power of the rows |
| PairOrder.PairsFromAscending | 8/8b.ts:110-129 | the pairs are listed in lexicographic order of their indices |
| PairOrder.IndexPairsEnumeration | 8/8b.ts:110-129 | the nested loops list every index pair `i < j` exactly once, in lexicographic order |
| Circuits.RootOf | 8/8b.ts:46-62 | following parents from a key ends at a key that is its own parent |
| Circuits.LinkRoots | 8/8b.ts:163-166 | pointing one root at another keeps a forest and moves the boxes of the second tree to the first root |
| Circuits.LinkDropsOneCircuit | 8/8b.ts:151-168 | joining two different roots removes exactly one circuit |
| Circuits.FindRoot | 8/8b.ts:46-62 | the loop returns the root of the key, and throws (None) exactly when the key is missing |
| Circuits.UnionFind.MakeRoot | 8/8b.ts:89-93 | one box becomes its own parent, every other key keeps its parent, and the forest invariant holds |
| Circuits.UnionFind.InitializeUnions | 8/8b.ts:86-94 | every box becomes its own parent and every other key keeps its parent |
| Circuits.UnionFind.Union | 8/8b.ts:151-168 | throws exactly when a box is missing; returns true exactly when the roots differ, pointing rootB at rootA; otherwise changes nothing; both boxes end with one root |
| Circuits.UnionFind.CountUniqueCircuits | 8/8b.ts:178-188 | the number of distinct roots of the boxes, and throws exactly when a box is missing |
| Circuits.PairsMembership | 8/8b.ts:104-141 | the enumerated pairs are exactly the boxes at indices `i < j` |
| Circuits.EnumerateRow | 8/8b.ts:115-128 | the inner loop appends the boxes of pairs (i, j) for every j after i, in order |
| Circuits.EnumeratePairs | 8/8b.ts:110-129 | the nested loops build that enumeration |
| Circuits.ConnectAllJoinsEvery | 8/8b.ts:190-198 | after the loop each pair's two boxes are in one circuit |
| Circuits.PrintedAtMostOnce | 8/8b.ts:190-198 | the product is logged at most once |
| Circuits.PrintedWhenJoined | 8/8b.ts:190-198 | starting with several circuits and ending with one, the product is logged |
| Circuits.PrintedIffSeveralBoxes | 8/8b.ts:190-198 | with every pair in some order, the product is logged exactly once exactly when there are two or more distinct boxes |
| Circuits.ConnectPair | 8/8b.ts:192-197 | one turn of the loop updates the union-find like the circuit labels and logs the product exactly when this join leaves one circuit |
| Circuits.ConnectAllPairs | 8/8b.ts:192-198 | the loop logs what the specification over the sorted pairs logs |
| Circuits.ConnectCircuits | 8/8b.ts:190-198 | the program logs the specified products, at most one, and one exactly when there are two or more distinct boxes |
| RedTiles.Area | 9/9a.ts:5-12 | the area covers at least the tile width and the tile height of the rectangle |
| RedTiles.AreaSymmetric | 9/9a.ts:5-12 | the area does not depend on the order of the corners, and one tile has area 1 |
| RedTiles.AreaOfRow | 9/9a.ts:5-12 | two tiles in one row span the tiles between them inclusive |
| RedTiles.MaxAreaInRow | 9/9a.ts:16-21 | the inner loop keeps the maximum over all the pairs visited so far |
| RedTiles.MaxOverEveryPair | 9/9a.ts:13-22 | the maximum over every pair is at least every pair's area and is one of them, or 0 without pairs |
| RedTiles.MaxAreaOverRows | 9/9a.ts:13-22 | the outer loop visits every pair `i < j` in order and keeps their maximum |
| RedTiles.MaxArea | 9/9a.ts:13-22 | part one returns the largest area of a rectangle with red tiles at opposite corners, and 0 with fewer than two tiles |
| RedTiles.CornersMeaning | 9/9b.ts:48-76 | the vertices are the tiles, in walk order, exactly at the positions where the walk turns on both axes |
| RedTiles.FindVertices | 9/9b.ts:48-66 | the loop adds exactly the tiles where the walk turns, wrapping around at both ends |
| RedTiles.AllTurnsKeepAllTiles | 9/9b.ts:48-76 | a walk that turns at every tile keeps every tile, in order: the reduction is the identity on a walk of vertices |
| RedTiles.NoTurnsNoVertices | 9/9b.ts:48-76 | a walk that turns at no tile has no vertices |
| RedTiles.SquareKeepsAllCorners | 9/9b.test.ts:193-202 | all four corners of a square are vertices |
| RedTiles.PolygonDropsPassThroughTiles | 9/9b.test.ts:204-231 | the tiles in the middle of a straight edge of the test polygon are dropped and the eight corners kept |
| Machines.Xor | 10/10a.ts:49-52 | the entry is the sum of the two bits modulo 2 |
| Machines.XorRows | 10/10a.ts:44-55 | the new row keeps the length of the row below and holds its entries XOR the pivot row's |
| Machines.EliminatedClearsColumn | 10/10a.ts:23-59 | elimination keeps the rows up to the pivot and the row lengths, and leaves 0 in the column below the pivot |
| Machines.EliminatedKeepsZeroColumns | 10/10a.ts:23-59 | a column whose pivot entry is 0 is unchanged in every row |
| Machines.XorRow | 10/10a.ts:41-55 | the loop over the columns builds the XOR row |
| Machines.Eliminate | 10/10a.ts:23-59 | the loop over the rows below the pivot returns the eliminated matrix |
| Machines.Indicators | 10/10a.ts:183-197 | an indicator is 0 exactly when its character is `.` |
| Machines.GetMachineData | 10/10a.ts:166-212 | every machine line gives at least one button, each with at least one entry, and at least one joltage |
| Machines.ParseNumbers | 10/10a.ts:198-205 | a comma-joined list of decimal numbers parses back to those numbers |
| Machines.ParseButton | 10/10a.ts:167-181 | a button written `(a,b,…)` parses back to its light numbers |
| Machines.ParseLights | 10/10a.ts:183-197 | the lights written with `.` and `#` parse back to their bits |
| Machines.ParseButtons | 10/10a.ts:167-181 | space-separated buttons between spaces parse back to their light lists |
| Machines.ParseJoltages | 10/10a.ts:198-205 | the joltages written between braces parse back to their numbers |
| Machines.ParseMachineLine | 10/10a.ts:166-212 | parsing the written form of any machine gives back its lights, buttons and joltages |
| Machines.GaussianMatrix | 10/10a.ts:137-164 | one row per light; its entry for button j is 1 exactly when the button lists that light, and its last entry is the light's target |
| Machines.EchelonZerosBelowPivots | 10/10a.ts:87-135 | in echelon form every pivot column is 0 below its pivot |
| Machines.FirstOneFrom | 10/10a.ts:104-111 | the search finds the first row from the pivot row on with a 1 in the column, or reports that none has one |
| Machines.PivotColumn | 10/10a.ts:104-130 | one column's loop is `PivotStep`: the first row with a 1 is swapped up to the pivot row and the rows below are eliminated, or, without such a row, nothing changes |
| Machines.GaussianEchelonForm | 10/10a.ts:87-135 | the loop over the columns returns the echelon form `EchelonForm` of the matrix; a matrix without rows throws (None) |
| Machines.EchelonFormIsEchelon | 10/10a.ts:87-135 | the echelon form has the same number of rows and the same width as the matrix and is in row-echelon form over every column |
| Machines.XorRowHolds | 10/10a.ts:41-55 | when a choice of buttons meets the pivot row, it meets the XOR of a row with the pivot row exactly when it meets the row |
| Machines.EliminatedSameSolutions | 10/10a.ts:23-59 | elimination keeps exactly the choices of buttons that meet every row |
| Machines.SwapSameSolutions | 10/10a.ts:112-116 | swapping two rows keeps exactly the choices of buttons that meet every row |
| Machines.EchelonFormSameSolutions | 10/10a.ts:87-135 | a choice of buttons reaches the target lights of the echelon form exactly when it reaches those of the matrix |
| Machines.MachineEchelonForm | 10/10a.ts:224-227 | a machine line gives the echelon form of its Gaussian matrix, and throws exactly when it has no lights |

## Left out

- Reading the JSON puzzle input, `console.log` and the visualiser of day 7 are left out.
  The inputs are parameters and the logged values are results.
- Day 8 part one (`8/8a.ts`) is not part of this model: it does not parse as written.
  Neither are the helper files `9/graph.ts` and `9/workers.ts`. Day 9 part two (`9/9b.ts`)
  does not parse either, because the body of `findEdges` (9/9b.ts:39-46) breaks off
  mid-statement; its complete functions `calculateArea`, `findVertices` and
  `isCoordinateAVertex` are modelled as written.
- `Number` is modelled on digit runs only: `Some` for a run, `None` (NaN) otherwise. The
  leading and trailing whitespace, signs, exponents and hexadecimal forms that JavaScript
  also accepts are left out. The inputs of these puzzles hold none of them.
- JsText.IsSpace: only the ASCII white space of ECMAScript is modelled. `trim` and `\s`
  also take Unicode spaces such as U+00A0 and U+FEFF; the puzzle inputs are ASCII text.
- Dial.ChangeAmount: the operations are required to be a letter followed by digits. The
  puzzle promises that; a malformed operation would make NaN propagate.
- Joltage.GreedySequence: `sequenceLength` (12 in the source) is a parameter, and banks
  must hold at least that many batteries.
- FreshRanges.CountFreshIds: the range texts are required to be two digit runs joined by
  `-`. The sort is modelled as an insertion sort by minimum, which is stable, as
  `Array.prototype.sort` is.
- Worksheet: a cell past the end of a short row is undefined in the source. It is kept,
  since undefined is not a space, and joins as the empty string, whose `Number` is 0. The
  model does the same.
- Beams: the string keys `x, y` that deduplicate the beams are modelled as coordinate
  tuples; parsing them back with `Number` gives the same coordinates. The `Set` of split
  coordinates gets a new array on every split, so it is modelled as a count of the splits.
- Circuits: the string keys of the parent map are modelled as coordinate tuples. The
  floating-point distance and its sort are left out: the sorted pairs are a parameter,
  required to be a permutation of the enumerated pairs. Products are exact integers.
- RedTiles: `findEdges`, whose body breaks off, and `isCoordinateWithinPolygon`, whose
  body is empty (9/9b.ts:86-87), are left out, and so is the commented-out search of part
  two. The `Set` of array references returned
  by `findVertices` is modelled as a sequence in insertion order.
- Machines: the stubs `getFreeVariables`, `getPivotVariables` and
  `readAllPossibleSolutions`, and the rest of the driver loop, are left out.
  - GaussianEchelonForm requires rows of one width. The source's column bound reads row 0
    only; every matrix that `getGaussianMatrix` builds has one width.
  - Entries are bits, so XOR is addition modulo 2.
  - The `Map` from row index to row is modelled as a sequence of rows.

## Findings

| source | as written | input that shows it | evidently intended | confidence | as-written member | corrected member |
|---|---|---|---|---|---|---|
| 1/1b.ts:34-50 | when the dial starts on 0 and the change is a multiple of 100, the increment counts the landing on 0 and also every whole turn | the dial on 0 and the operation `R100`: counted 2, clicks onto 0: 1 | count each click onto 0 once | not executed | Dial.CountIncrementOvercountExample | Dial.CorrectedIncrementIsZeroClicks |
