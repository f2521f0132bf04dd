/**
  Day 10, part one: each machine line lists its indicator lights, its buttons (each the
  list of lights it toggles) and its joltages. The lights and buttons become a matrix over
  GF(2), one row per light and one column per button plus the light's target, which is
  brought to echelon form by row swaps and XOR elimination.
 */
module Machines {
  import opened JsText

  /** A matrix entry: every matrix the program builds holds only 0 and 1. */
  type Bit = b: int | 0 <= b <= 1

  /** The rows of the matrix map, keyed 0, 1, ..., in order. */
  type Matrix = seq<seq<Bit>>

  /** `^` on 0 and 1. */
  function Xor(a: Bit, b: Bit): (r: Bit)
    ensures r == (a + b) % 2
  {
    if a == b then 0 else 1
  }

  /** `row[column] === 1`: a column past the end of the row reads undefined, which is not 1. */
  predicate HasOne(row: seq<Bit>, column: int)
  {
    0 <= column < |row| && row[column] == 1
  }

  /** The pivot row's entry as `^` sees it: undefined past its end counts as 0. */
  function EntryOrZero(row: seq<Bit>, column: nat): Bit
  {
    if column < |row| then row[column] else 0
  }

  /** The row below XOR the pivot row, as long as the row below. */
  function XorRows(belowRow: seq<Bit>, pivotRow: seq<Bit>): (r: seq<Bit>)
    ensures |r| == |belowRow|
    ensures forall k :: 0 <= k < |r| ==> r[k] == Xor(belowRow[k], EntryOrZero(pivotRow, k))
  {
    seq(|belowRow|, k requires 0 <= k < |belowRow| => Xor(belowRow[k], EntryOrZero(pivotRow, k)))
  }

  /** The matrix `eliminate` returns, row by row. */
  function Eliminated(matrix: Matrix, currentColumnIndex: int, pivotRowIndex: nat): (r: Matrix)
    ensures |r| == |matrix|
    ensures forall i :: 0 <= i < |matrix| ==>
      r[i] == if i <= pivotRowIndex || !HasOne(matrix[i], currentColumnIndex) then matrix[i]
              else XorRows(matrix[i], matrix[pivotRowIndex])
  {
    seq(|matrix|, i requires 0 <= i < |matrix| =>
      if i <= pivotRowIndex || !HasOne(matrix[i], currentColumnIndex) then matrix[i]
      else XorRows(matrix[i], matrix[pivotRowIndex]))
  }

  /**
    Elimination leaves the rows at or above the pivot and the row lengths as they were,
    and with a 1 at the pivot every lower row ends with 0 in that column.
   */
  lemma EliminatedClearsColumn(matrix: Matrix, currentColumnIndex: nat, pivotRowIndex: nat)
    requires pivotRowIndex < |matrix| && HasOne(matrix[pivotRowIndex], currentColumnIndex)
    ensures forall i :: 0 <= i <= pivotRowIndex ==> Eliminated(matrix, currentColumnIndex, pivotRowIndex)[i] == matrix[i]
    ensures forall i :: 0 <= i < |matrix| ==> |Eliminated(matrix, currentColumnIndex, pivotRowIndex)[i]| == |matrix[i]|
    ensures forall i :: pivotRowIndex < i < |matrix| && currentColumnIndex < |matrix[i]| ==>
      Eliminated(matrix, currentColumnIndex, pivotRowIndex)[i][currentColumnIndex] == 0
  {
  }

  /** Columns where the pivot row has 0 keep their entries in every row. */
  lemma EliminatedKeepsZeroColumns(matrix: Matrix, currentColumnIndex: nat, pivotRowIndex: nat, column: nat)
    requires pivotRowIndex < |matrix| && EntryOrZero(matrix[pivotRowIndex], column) == 0
    ensures forall i :: 0 <= i < |matrix| && column < |matrix[i]| ==>
      Eliminated(matrix, currentColumnIndex, pivotRowIndex)[i][column] == matrix[i][column]
  {
  }

  /** The inner loop of `eliminate`: the XOR of two rows, one column at a time. */
  method XorRow(belowRow: seq<Bit>, pivotRow: seq<Bit>) returns (newValues: seq<Bit>)
    ensures newValues == XorRows(belowRow, pivotRow)
  {
    newValues := [];
    for columnIndex := 0 to |belowRow|
      invariant |newValues| == columnIndex
      invariant forall k :: 0 <= k < columnIndex ==> newValues[k] == Xor(belowRow[k], EntryOrZero(pivotRow, k))
    {
      var belowRowValue := belowRow[columnIndex];
      var pivotRowValue := EntryOrZero(pivotRow, columnIndex);
      newValues := newValues + [Xor(belowRowValue, pivotRowValue)];
    }
  }

  /**
    `eliminate`: on a copy of the map, each row below the pivot with a 1 in the column
    becomes its XOR with the pivot row. The input is a value and stays as it was.
   */
  method Eliminate(matrix: Matrix, currentColumnIndex: int, pivotRowIndex: nat) returns (localMatrix: Matrix)
    ensures localMatrix == Eliminated(matrix, currentColumnIndex, pivotRowIndex)
  {
    localMatrix := matrix;
    var rowBelowIndex := pivotRowIndex + 1;
    while rowBelowIndex < |localMatrix|
      invariant |localMatrix| == |matrix|
      invariant pivotRowIndex + 1 <= rowBelowIndex
      invariant forall i :: 0 <= i < |matrix| ==>
        localMatrix[i] == if i < rowBelowIndex then Eliminated(matrix, currentColumnIndex, pivotRowIndex)[i] else matrix[i]
      decreases |localMatrix| - rowBelowIndex
    {
      if !HasOne(localMatrix[rowBelowIndex], currentColumnIndex) {
        rowBelowIndex := rowBelowIndex + 1;
        continue;
      }
      var newValues := XorRow(localMatrix[rowBelowIndex], localMatrix[pivotRowIndex]);
      localMatrix := localMatrix[rowBelowIndex := newValues];
      rowBelowIndex := rowBelowIndex + 1;
    }
  }

  // ---------------------------------------------------------------------------------
  // Parsing a machine line

  /** What one line describes: the lights each button toggles, the joltages and the target lights. */
  datatype MachineData = MachineData(
    buttonDiagrams: seq<seq<Option<nat>>>,
    joltages: seq<Option<nat>>,
    lightIndicators: seq<Bit>)

  /** `.map(Number)`. */
  function Numbers(pieces: seq<string>): (r: seq<Option<nat>>)
    ensures |r| == |pieces| && forall i :: 0 <= i < |r| ==> r[i] == Number(pieces[i])
  {
    seq(|pieces|, i requires 0 <= i < |pieces| => Number(pieces[i]))
  }

  /** One button diagram: the text between "(" and ")", split at commas, each piece a number. */
  function ButtonDiagram(diagram: string): (r: seq<Option<nat>>)
    ensures |r| >= 1
  {
    Numbers(Split(Slice(diagram, IndexOf(diagram, '(') + 1, IndexOf(diagram, ')')), ','))
  }

  /** `.map` of the button diagram parser over the space-separated diagrams. */
  function ButtonDiagrams(diagrams: seq<string>): (r: seq<seq<Option<nat>>>)
    ensures |r| == |diagrams| && forall k :: 0 <= k < |r| ==> r[k] == ButtonDiagram(diagrams[k])
  {
    seq(|diagrams|, k requires 0 <= k < |diagrams| => ButtonDiagram(diagrams[k]))
  }

  /** `.split("")` and the mapping of "." to 0 and anything else to 1. */
  function Indicators(text: string): (r: seq<Bit>)
    ensures |r| == |text| && forall i :: 0 <= i < |r| ==> (r[i] == 0 <==> text[i] == '.')
  {
    seq(|text|, i requires 0 <= i < |text| => if text[i] == '.' then 0 else 1)
  }

  /** The space-separated button diagrams between "]" and "{". */
  function DiagramTexts(rawMachineData: string): seq<string>
  {
    Split(Trim(Slice(rawMachineData, IndexOf(rawMachineData, ']') + 1, IndexOf(rawMachineData, '{'))), ' ')
  }

  /** The comma-separated joltages between "{" and "}". */
  function JoltageTexts(rawMachineData: string): seq<string>
  {
    Split(Trim(Slice(rawMachineData, IndexOf(rawMachineData, '{') + 1, IndexOf(rawMachineData, '}'))), ',')
  }

  /** The indicator characters between "[" and "]". */
  function IndicatorText(rawMachineData: string): string
  {
    Trim(Slice(rawMachineData, IndexOf(rawMachineData, '[') + 1, IndexOf(rawMachineData, ']')))
  }

  /**
    `getMachineData`: the buttons are the space-separated diagrams between "]" and "{",
    the lights the characters between "[" and "]", the joltages the comma-separated
    numbers between "{" and "}". A split never yields an empty list.
   */
  function GetMachineData(rawMachineData: string): (machineData: MachineData)
    ensures |machineData.buttonDiagrams| >= 1 && |machineData.joltages| >= 1
    ensures forall j :: 0 <= j < |machineData.buttonDiagrams| ==> |machineData.buttonDiagrams[j]| >= 1
  {
    var buttonDiagrams := ButtonDiagrams(DiagramTexts(rawMachineData));
    var joltages := Numbers(JoltageTexts(rawMachineData));
    assert |buttonDiagrams| >= 1 && |joltages| >= 1;
    MachineData(buttonDiagrams, joltages, Indicators(IndicatorText(rawMachineData)))
  }

  /** The puzzle's line format, written out: lights as "." and "#", numbers in decimal. */
  function LightText(lights: seq<Bit>): (s: string)
    ensures |s| == |lights| && forall i :: 0 <= i < |s| ==> s[i] == (if lights[i] == 0 then '.' else '#')
  {
    seq(|lights|, i requires 0 <= i < |lights| => if lights[i] == 0 then '.' else '#')
  }

  function NumberTexts(ns: seq<nat>): (texts: seq<string>)
    ensures |texts| == |ns| && forall i :: 0 <= i < |ns| ==> texts[i] == DecimalString(ns[i])
  {
    seq(|ns|, i requires 0 <= i < |ns| => DecimalString(ns[i]))
  }

  function ButtonText(button: seq<nat>): string
  {
    ['('] + Join(NumberTexts(button), ',') + [')']
  }

  function ButtonTexts(buttons: seq<seq<nat>>): (texts: seq<string>)
    ensures |texts| == |buttons| && forall j :: 0 <= j < |buttons| ==> texts[j] == ButtonText(buttons[j])
  {
    seq(|buttons|, j requires 0 <= j < |buttons| => ButtonText(buttons[j]))
  }

  /** A line with its three parts in place: "[lights] buttons {joltages}". */
  function Line(lightsText: string, buttonsText: string, joltagesText: string): string
  {
    ['['] + lightsText + [']'] + ([' '] + buttonsText + [' ']) + ['{'] + joltagesText + ['}']
  }

  function MachineLine(lights: seq<Bit>, buttons: seq<seq<nat>>, joltages: seq<nat>): string
  {
    Line(LightText(lights), Join(ButtonTexts(buttons), ' '), Join(NumberTexts(joltages), ','))
  }

  function Somes(ns: seq<nat>): (r: seq<Option<nat>>)
    ensures |r| == |ns| && forall i :: 0 <= i < |ns| ==> r[i] == Some(ns[i])
  {
    seq(|ns|, i requires 0 <= i < |ns| => Some(ns[i]))
  }

  function SomeLists(buttons: seq<seq<nat>>): (r: seq<seq<Option<nat>>>)
    ensures |r| == |buttons| && forall k :: 0 <= k < |r| ==> r[k] == Somes(buttons[k])
  {
    seq(|buttons|, k requires 0 <= k < |buttons| => Somes(buttons[k]))
  }

  /** Neither a digit nor a comma: such a character is not in a comma-joined number list. */
  lemma NumbersTextAvoids(ns: seq<nat>, c: char)
    requires c != ',' && !IsDigit(c)
    ensures c !in Join(NumberTexts(ns), ',')
  {
    var texts := NumberTexts(ns);
    forall i | 0 <= i < |texts| ensures c !in texts[i] {
      assert IsDigitRun(texts[i]);
    }
    JoinAvoids(texts, ',', c);
  }

  /** A comma-joined number list parses back to its numbers. */
  lemma ParseNumbers(ns: seq<nat>)
    requires |ns| >= 1
    ensures Numbers(Split(Join(NumberTexts(ns), ','), ',')) == Somes(ns)
  {
    var texts := NumberTexts(ns);
    forall i | 0 <= i < |texts| ensures ',' !in texts[i] {
      assert IsDigitRun(texts[i]);
    }
    SplitJoin(texts, ',');
    forall i | 0 <= i < |ns| ensures Number(texts[i]) == Some(ns[i]) {
      NumberOfDecimalString(ns[i]);
    }
  }

  /** The text of a button avoids every character outside its digits, commas and parentheses. */
  lemma ButtonTextAvoids(button: seq<nat>, c: char)
    requires c != ',' && !IsDigit(c) && c != '(' && c != ')'
    ensures c !in ButtonText(button)
  {
    NumbersTextAvoids(button, c);
  }

  /** In "(" + inner + ")" with no ")" in inner, the parentheses sit at both ends. */
  lemma Parenthesised(inner: string, diagram: string)
    requires ')' !in inner
    requires diagram == ['('] + inner + [')']
    ensures IndexOf(diagram, '(') == 0 && IndexOf(diagram, ')') == |inner| + 1
  {
    IndexOfAfter(['('] + inner, [')'], ')');
  }

  /** The button diagram parser reads the numbers of its parenthesised text. */
  lemma ButtonDiagramOf(diagram: string, inner: string)
    requires Slice(diagram, IndexOf(diagram, '(') + 1, IndexOf(diagram, ')')) == inner
    ensures ButtonDiagram(diagram) == Numbers(Split(inner, ','))
  {
    assert ButtonDiagram(diagram)
      == Numbers(Split(Slice(diagram, IndexOf(diagram, '(') + 1, IndexOf(diagram, ')')), ','));
  }

  /** A button diagram parses back to the lights it lists. */
  lemma ParseButton(button: seq<nat>)
    requires |button| >= 1
    ensures ButtonDiagram(ButtonText(button)) == Somes(button)
  {
    var inner := Join(NumberTexts(button), ',');
    var diagram := ButtonText(button);
    NumbersTextAvoids(button, ')');
    Parenthesised(inner, diagram);
    SliceOfMiddle(['('], inner, [')']);
    ButtonDiagramOf(diagram, inner);
    ParseNumbers(button);
  }

  /** The buttons' part of a line: no bracket or brace in it, and "(" and ")" at its ends. */
  lemma ButtonsTextShape(buttons: seq<seq<nat>>)
    requires |buttons| >= 1
    ensures var b := Join(ButtonTexts(buttons), ' ');
      |b| >= 1 && b[0] == '(' && b[|b| - 1] == ')'
      && '[' !in b && ']' !in b && '{' !in b && '}' !in b
  {
    var texts := ButtonTexts(buttons);
    forall c | c in {'[', ']', '{', '}'} ensures c !in Join(texts, ' ') {
      forall j | 0 <= j < |texts| ensures c !in texts[j] {
        ButtonTextAvoids(buttons[j], c);
      }
      JoinAvoids(texts, ' ', c);
    }
    JoinEnds(texts, ' ');
  }

  /** A character in no part of a line but the one delimiter is first found at that delimiter. */
  lemma LineIndices(l: string, b: string, j: string, line: string)
    requires '[' !in l && ']' !in l && '{' !in l && '}' !in l && '{' !in b && '}' !in b && '}' !in j
    requires line == Line(l, b, j)
    ensures IndexOf(line, '[') == 0 && IndexOf(line, ']') == |l| + 1
      && IndexOf(line, '{') == |l| + |b| + 4 && IndexOf(line, '}') == |l| + |b| + |j| + 5
  {
    var a1 := ['['] + l;
    var a2 := a1 + [']'];
    var a3 := a2 + ([' '] + b + [' ']);
    var a4 := a3 + ['{'];
    var a5 := a4 + j;
    assert line == a5 + ['}'];
    assert IndexOf(a5 + ['}'], ']') == |a1| by {
      IndexOfAfter(a1, [']'], ']');
      IndexOfBefore(a2, [' '] + b + [' '], ']');
      IndexOfBefore(a3, ['{'], ']');
      IndexOfBefore(a4, j, ']');
      IndexOfBefore(a5, ['}'], ']');
    }
    assert IndexOf(a5 + ['}'], '{') == |a3| by {
      IndexOfAfter(a3, ['{'], '{');
      IndexOfBefore(a4, j, '{');
      IndexOfBefore(a5, ['}'], '{');
    }
    assert IndexOf(a5 + ['}'], '}') == |a5| by {
      IndexOfAfter(a5, ['}'], '}');
    }
  }

  /** The slice of a concatenation over the middle piece's positions is that piece. */
  lemma SliceOfMiddle(front: string, part: string, back: string)
    ensures Slice(front + part + back, |front|, |front| + |part|) == part
  {
    var s := front + part + back;
    SliceInRange(s, |front|, |front| + |part|);
    assert s[|front|..|front| + |part|] == part;
  }

  /** The slices `getMachineData` takes out of a line, at the delimiters' positions, are its three parts. */
  lemma LineSlices(l: string, b: string, j: string, line: string)
    requires line == Line(l, b, j)
    ensures Slice(line, 1, |l| + 1) == l
    ensures Slice(line, |l| + 2, |l| + |b| + 4) == [' '] + b + [' ']
    ensures Slice(line, |l| + |b| + 5, |l| + |b| + |j| + 5) == j
  {
    var m := [' '] + b + [' '];
    assert line == ['['] + l + ([']'] + m + ['{'] + j + ['}']);
    SliceOfMiddle(['['], l, [']'] + m + ['{'] + j + ['}']);
    assert line == (['['] + l + [']']) + m + (['{'] + j + ['}']);
    SliceOfMiddle(['['] + l + [']'], m, ['{'] + j + ['}']);
    assert line == (['['] + l + [']'] + m + ['{']) + j + ['}'];
    SliceOfMiddle(['['] + l + [']'] + m + ['{'], j, ['}']);
  }

  /** A slice between two positions is the slice between the delimiters found there. */
  lemma SliceBetween(line: string, open: char, close: char, part: string, start: int, end: int)
    requires IndexOf(line, open) + 1 == start && IndexOf(line, close) == end
    requires Slice(line, start, end) == part
    ensures Slice(line, IndexOf(line, open) + 1, IndexOf(line, close)) == part
  {
  }

  /** The slices `getMachineData` takes out of a line, between the delimiters it finds first, are its three parts. */
  lemma DelimitedParts(l: string, b: string, j: string, line: string)
    requires IndexOf(line, '[') == 0 && IndexOf(line, ']') == |l| + 1
    requires IndexOf(line, '{') == |l| + |b| + 4 && IndexOf(line, '}') == |l| + |b| + |j| + 5
    requires Slice(line, 1, |l| + 1) == l
    requires Slice(line, |l| + 2, |l| + |b| + 4) == [' '] + b + [' ']
    requires Slice(line, |l| + |b| + 5, |l| + |b| + |j| + 5) == j
    ensures Slice(line, IndexOf(line, '[') + 1, IndexOf(line, ']')) == l
    ensures Slice(line, IndexOf(line, ']') + 1, IndexOf(line, '{')) == [' '] + b + [' ']
    ensures Slice(line, IndexOf(line, '{') + 1, IndexOf(line, '}')) == j
  {
    SliceBetween(line, '[', ']', l, 1, |l| + 1);
    SliceBetween(line, ']', '{', [' '] + b + [' '], |l| + 2, |l| + |b| + 4);
    SliceBetween(line, '{', '}', j, |l| + |b| + 5, |l| + |b| + |j| + 5);
  }

  /** The indicator text of a line is the trimmed text between "[" and "]". */
  lemma IndicatorTextOf(line: string, l: string)
    requires Slice(line, IndexOf(line, '[') + 1, IndexOf(line, ']')) == l
    ensures IndicatorText(line) == Trim(l)
  {
    assert IndicatorText(line) == Trim(Slice(line, IndexOf(line, '[') + 1, IndexOf(line, ']')));
  }

  /** The diagram texts of a line are the trimmed text between "]" and "{", split at spaces. */
  lemma DiagramTextsOf(line: string, middle: string)
    requires Slice(line, IndexOf(line, ']') + 1, IndexOf(line, '{')) == middle
    ensures DiagramTexts(line) == Split(Trim(middle), ' ')
  {
    assert DiagramTexts(line) == Split(Trim(Slice(line, IndexOf(line, ']') + 1, IndexOf(line, '{'))), ' ');
  }

  /** The joltage texts of a line are the trimmed text between "{" and "}", split at commas. */
  lemma JoltageTextsOf(line: string, j: string)
    requires Slice(line, IndexOf(line, '{') + 1, IndexOf(line, '}')) == j
    ensures JoltageTexts(line) == Split(Trim(j), ',')
  {
    assert JoltageTexts(line) == Split(Trim(Slice(line, IndexOf(line, '{') + 1, IndexOf(line, '}'))), ',');
  }


  /** The lights' text maps back to the lights. */
  lemma ParseLights(lights: seq<Bit>)
    ensures Indicators(Trim(LightText(lights))) == lights
  {
    TrimWord(LightText(lights));
  }

  /** The buttons' text between single spaces splits and parses back to the buttons. */
  lemma ParseButtons(buttons: seq<seq<nat>>)
    requires |buttons| >= 1 && forall j :: 0 <= j < |buttons| ==> |buttons[j]| >= 1
    ensures ButtonDiagrams(Split(Trim([' '] + Join(ButtonTexts(buttons), ' ') + [' ']), ' ')) == SomeLists(buttons)
  {
    var texts := ButtonTexts(buttons);
    var b := Join(texts, ' ');
    assert Trim([' '] + b + [' ']) == b by {
      ButtonsTextShape(buttons);
      TrimPadded(b);
    }
    assert Split(b, ' ') == texts by {
      forall k | 0 <= k < |texts| ensures ' ' !in texts[k] {
        ButtonTextAvoids(buttons[k], ' ');
      }
      SplitJoin(texts, ' ');
    }
    forall k | 0 <= k < |buttons| ensures ButtonDiagram(texts[k]) == Somes(buttons[k]) {
      ParseButton(buttons[k]);
    }
    assert ButtonDiagrams(texts) == SomeLists(buttons);
  }

  /** The joltages' text parses back to the joltages. */
  lemma ParseJoltages(joltages: seq<nat>)
    requires |joltages| >= 1
    ensures Numbers(Split(Trim(Join(NumberTexts(joltages), ',')), ',')) == Somes(joltages)
  {
    var j := Join(NumberTexts(joltages), ',');
    forall c | IsSpace(c) ensures c !in j {
      NumbersTextAvoids(joltages, c);
    }
    assert j[0] in j && j[|j| - 1] in j by {
      JoinEnds(NumberTexts(joltages), ',');
    }
    TrimWord(j);
    ParseNumbers(joltages);
  }

  /** What `getMachineData` makes of a line, in terms of the three slices it takes out of it. */
  lemma ParseLine(l: string, middle: string, j: string, line: string)
    requires Slice(line, IndexOf(line, '[') + 1, IndexOf(line, ']')) == l
    requires Slice(line, IndexOf(line, ']') + 1, IndexOf(line, '{')) == middle
    requires Slice(line, IndexOf(line, '{') + 1, IndexOf(line, '}')) == j
    ensures GetMachineData(line) == MachineData(
        ButtonDiagrams(Split(Trim(middle), ' ')),
        Numbers(Split(Trim(j), ',')),
        Indicators(Trim(l)))
  {
    IndicatorTextOf(line, l);
    DiagramTextsOf(line, middle);
    JoltageTextsOf(line, j);
  }

  /** Reading a line written in the puzzle's format gives back its lights, buttons and joltages. */
  lemma ParseMachineLine(lights: seq<Bit>, buttons: seq<seq<nat>>, joltages: seq<nat>)
    requires |buttons| >= 1 && |joltages| >= 1
    requires forall j :: 0 <= j < |buttons| ==> |buttons[j]| >= 1
    ensures GetMachineData(MachineLine(lights, buttons, joltages))
      == MachineData(SomeLists(buttons), Somes(joltages), lights)
  {
    var l, b, j := LightText(lights), Join(ButtonTexts(buttons), ' '), Join(NumberTexts(joltages), ',');
    var texts := Split(Trim([' '] + b + [' ']), ' ');
    var line := MachineLine(lights, buttons, joltages);
    assert line == Line(l, b, j);
    assert GetMachineData(line) == MachineData(
        ButtonDiagrams(texts),
        Numbers(Split(Trim(j), ',')),
        Indicators(Trim(l))) by {
      assert '[' !in l && ']' !in l && '{' !in l && '}' !in l;
      assert '{' !in b && '}' !in b by {
        ButtonsTextShape(buttons);
      }
      assert '}' !in j by {
        NumbersTextAvoids(joltages, '}');
      }
      LineIndices(l, b, j, line);
      LineSlices(l, b, j, line);
      DelimitedParts(l, b, j, line);
      ParseLine(l, [' '] + b + [' '], j, line);
    }
    assert ButtonDiagrams(texts) == SomeLists(buttons) by {
      ParseButtons(buttons);
    }
    assert Indicators(Trim(l)) == lights by {
      ParseLights(lights);
    }
    assert Numbers(Split(Trim(j), ',')) == Somes(joltages) by {
      ParseJoltages(joltages);
    }
    assert MachineLine(lights, buttons, joltages) == Line(l, b, j);
  }

  // ---------------------------------------------------------------------------------
  // The matrix of a machine

  /** The matrix `getGaussianMatrix` builds, one row per light, written as a value. */
  function GaussianMatrixOf(machineData: MachineData): Matrix
  {
    var buttons := machineData.buttonDiagrams;
    seq(|machineData.lightIndicators|, key requires 0 <= key < |machineData.lightIndicators| =>
      seq(|buttons| + 1, j requires 0 <= j < |buttons| + 1 =>
        if j == |buttons| then machineData.lightIndicators[key] else if Some(key) in buttons[j] then 1 else 0))
  }

  /**
    `getGaussianMatrix`: one row per light; its entry for button j is 1 exactly when the
    button lists that light, and its last entry is the light's target.
   */
  method GaussianMatrix(machineData: MachineData) returns (matrix: Matrix)
    ensures |matrix| == |machineData.lightIndicators|
    ensures HasWidth(matrix, |machineData.buttonDiagrams| + 1)
    ensures forall key, j :: 0 <= key < |matrix| && 0 <= j < |machineData.buttonDiagrams| ==>
      (matrix[key][j] == 1 <==> Some(key) in machineData.buttonDiagrams[j])
    ensures forall key :: 0 <= key < |matrix| ==>
      matrix[key][|machineData.buttonDiagrams|] == machineData.lightIndicators[key]
    ensures matrix == GaussianMatrixOf(machineData)
  {
    var buttonDiagrams := machineData.buttonDiagrams;
    var target := machineData.lightIndicators;
    matrix := seq(|target|, _ => []);
    for key := 0 to |matrix|
      invariant |matrix| == |target|
      invariant forall r :: key <= r < |matrix| ==> matrix[r] == []
      invariant forall r :: 0 <= r < key ==> |matrix[r]| == |buttonDiagrams| + 1
      invariant forall r, j :: 0 <= r < key && 0 <= j < |buttonDiagrams| ==>
        (matrix[r][j] == 1 <==> Some(r) in buttonDiagrams[j])
      invariant forall r :: 0 <= r < key ==> matrix[r][|buttonDiagrams|] == target[r]
    {
      ghost var rowsBefore := matrix;
      for j := 0 to |buttonDiagrams|
        invariant |matrix| == |target|
        invariant forall r :: 0 <= r < |matrix| && r != key ==> matrix[r] == rowsBefore[r]
        invariant |matrix[key]| == j
        invariant forall k :: 0 <= k < j ==> (matrix[key][k] == 1 <==> Some(key) in buttonDiagrams[k])
      {
        if Some(key) in buttonDiagrams[j] {
          matrix := matrix[key := matrix[key] + [1]];
        } else {
          matrix := matrix[key := matrix[key] + [0]];
        }
      }
      matrix := matrix[key := matrix[key] + [target[key]]];
    }
    forall key | 0 <= key < |matrix| ensures matrix[key] == GaussianMatrixOf(machineData)[key] {
      var row, spec := matrix[key], GaussianMatrixOf(machineData)[key];
      forall j | 0 <= j < |row| ensures row[j] == spec[j] {
        if j < |buttonDiagrams| {
          assert row[j] == 1 <==> spec[j] == 1;
        }
      }
    }
  }

  // ---------------------------------------------------------------------------------
  // Echelon form

  /** Every row has the same length. */
  predicate HasWidth(matrix: Matrix, width: nat)
  {
    forall i :: 0 <= i < |matrix| ==> |matrix[i]| == width
  }

  /**
    The stair pattern over the columns before `bound`: pivot k sits in row k at column
    pivots[k] and holds 1, the pivot columns rise strictly, every row is 0 before its
    pivot, and the rows after the last pivot are 0.
   */
  predicate EchelonUpTo(matrix: Matrix, width: nat, pivots: seq<nat>, bound: nat)
    requires HasWidth(matrix, width) && bound <= width
  {
    |pivots| <= |matrix|
    && (forall k :: 0 <= k < |pivots| ==> pivots[k] < bound)
    && (forall k, l :: 0 <= k < l < |pivots| ==> pivots[k] < pivots[l])
    && (forall k :: 0 <= k < |pivots| ==> matrix[k][pivots[k]] == 1)
    && (forall i, c :: 0 <= i < |matrix| && 0 <= c < bound && (i >= |pivots| || c < pivots[i]) ==> matrix[i][c] == 0)
  }

  /** Below each pivot its column holds only 0. */
  lemma EchelonZerosBelowPivots(matrix: Matrix, width: nat, pivots: seq<nat>)
    requires HasWidth(matrix, width) && EchelonUpTo(matrix, width, pivots, width)
    ensures forall k, i :: 0 <= k < |pivots| && k < i < |matrix| ==> matrix[i][pivots[k]] == 0
  {
    forall k, i | 0 <= k < |pivots| && k < i < |matrix| ensures matrix[i][pivots[k]] == 0 {
      if i < |pivots| {
        assert pivots[k] < pivots[i];
      }
    }
  }

  /** A column where no row from the next pivot row on has a 1 adds nothing to the stairs. */
  lemma NoPivotStep(matrix: Matrix, width: nat, pivots: seq<nat>, columnIndex: nat)
    requires HasWidth(matrix, width) && columnIndex < width && EchelonUpTo(matrix, width, pivots, columnIndex)
    requires forall i :: |pivots| <= i < |matrix| ==> matrix[i][columnIndex] != 1
    ensures EchelonUpTo(matrix, width, pivots, columnIndex + 1)
  {
  }

  /** Swapping two rows at or after the next pivot row keeps the stairs. */
  lemma SwapStep(matrix: Matrix, width: nat, pivots: seq<nat>, columnIndex: nat, rowIndex: nat)
    requires HasWidth(matrix, width) && columnIndex <= width && EchelonUpTo(matrix, width, pivots, columnIndex)
    requires |pivots| <= rowIndex < |matrix|
    ensures HasWidth(matrix[|pivots| := matrix[rowIndex]][rowIndex := matrix[|pivots|]], width)
    ensures EchelonUpTo(matrix[|pivots| := matrix[rowIndex]][rowIndex := matrix[|pivots|]], width, pivots, columnIndex)
  {
  }

  /** With a 1 at the next pivot row, eliminating below it adds a stair at this column. */
  lemma EliminateStep(matrix: Matrix, width: nat, pivots: seq<nat>, columnIndex: nat)
    requires HasWidth(matrix, width) && columnIndex < width && EchelonUpTo(matrix, width, pivots, columnIndex)
    requires |pivots| < |matrix| && matrix[|pivots|][columnIndex] == 1
    ensures HasWidth(Eliminated(matrix, columnIndex, |pivots|), width)
    ensures EchelonUpTo(Eliminated(matrix, columnIndex, |pivots|), width, pivots + [columnIndex], columnIndex + 1)
  {
    var p := |pivots|;
    var r := Eliminated(matrix, columnIndex, p);
    var next := pivots + [columnIndex];
    assert forall k :: 0 <= k < p ==> next[k] == pivots[k];
    forall i, c | 0 <= i < |r| && 0 <= c < columnIndex + 1 && (i >= |next| || c < next[i]) ensures r[i][c] == 0 {
      if i > p && HasOne(matrix[i], columnIndex) {
        assert r[i][c] == Xor(matrix[i][c], matrix[p][c]);
      }
    }
  }

  /** Rows i and j traded places, as the two `set` calls of the swap leave them. */
  function Swap(matrix: Matrix, i: nat, j: nat): Matrix
    requires i < |matrix| && j < |matrix|
  {
    matrix[i := matrix[j]][j := matrix[i]]
  }

  /** The first row from `from` on with a 1 in the column, or the number of rows if none has. */
  function FirstOneFrom(matrix: Matrix, column: nat, from: nat): (r: nat)
    requires from <= |matrix|
    ensures from <= r <= |matrix|
    ensures r < |matrix| ==> HasOne(matrix[r], column)
    ensures forall i :: from <= i < r ==> !HasOne(matrix[i], column)
    decreases |matrix| - from
  {
    if from == |matrix| || HasOne(matrix[from], column) then from else FirstOneFrom(matrix, column, from + 1)
  }

  /**
    One column of `getGaussianEchelonForm`: the first row from the pivot row on with a 1 is
    swapped up and the rows below it are eliminated, and the pivot row moves down; without
    such a row nothing changes.
   */
  function PivotStep(matrix: Matrix, column: nat, pivotRow: nat): (Matrix, nat)
    requires pivotRow <= |matrix|
  {
    var r := FirstOneFrom(matrix, column, pivotRow);
    if r == |matrix| then (matrix, pivotRow)
    else (Eliminated(Swap(matrix, pivotRow, r), column, pivotRow), pivotRow + 1)
  }

  /** A pivot step keeps the number of rows and their width. */
  lemma PivotStepKeepsWidth(matrix: Matrix, column: nat, pivotRow: nat, width: nat)
    requires pivotRow <= |matrix| && HasWidth(matrix, width)
    ensures |PivotStep(matrix, column, pivotRow).0| == |matrix| && HasWidth(PivotStep(matrix, column, pivotRow).0, width)
    ensures PivotStep(matrix, column, pivotRow).1 <= |matrix|
  {
  }

  /** The columns from `column` up to `bound`, one pivot step each. */
  function EchelonFrom(matrix: Matrix, column: nat, pivotRow: nat, bound: nat): (r: Matrix)
    requires pivotRow <= |matrix|
    ensures |r| == |matrix|
    decreases bound - column
  {
    if column >= bound then matrix
    else
      var step := PivotStep(matrix, column, pivotRow);
      EchelonFrom(step.0, column + 1, step.1, bound)
  }

  /** What `getGaussianEchelonForm` returns: the column bound is row 0's length, and without rows it throws. */
  function EchelonForm(matrix: Matrix): Option<Matrix>
  {
    if |matrix| == 0 then None else Some(EchelonFrom(matrix, 0, 0, |matrix[0]|))
  }

  /** The pivot steps bring a matrix of one width to row-echelon form. */
  lemma {:induction false} EchelonFromStairs(matrix: Matrix, width: nat, pivots: seq<nat>, column: nat)
    requires HasWidth(matrix, width) && column <= width && EchelonUpTo(matrix, width, pivots, column)
    ensures HasWidth(EchelonFrom(matrix, column, |pivots|, width), width)
    ensures exists finalPivots :: EchelonUpTo(EchelonFrom(matrix, column, |pivots|, width), width, finalPivots, width)
    decreases width - column
  {
    if column < width {
      var p := |pivots|;
      var r := FirstOneFrom(matrix, column, p);
      if r == |matrix| {
        NoPivotStep(matrix, width, pivots, column);
        EchelonFromStairs(matrix, width, pivots, column + 1);
      } else {
        SwapStep(matrix, width, pivots, column, r);
        var swapped := Swap(matrix, p, r);
        EliminateStep(swapped, width, pivots, column);
        EchelonFromStairs(Eliminated(swapped, column, p), width, pivots + [column], column + 1);
      }
    } else {
      assert EchelonUpTo(EchelonFrom(matrix, column, |pivots|, width), width, pivots, width);
    }
  }

  /** The echelon form of a matrix of one width has that width and is in row-echelon form. */
  lemma EchelonFormIsEchelon(matrix: Matrix)
    requires |matrix| > 0 && HasWidth(matrix, |matrix[0]|)
    ensures |EchelonForm(matrix).value| == |matrix| && HasWidth(EchelonForm(matrix).value, |matrix[0]|)
    ensures exists pivots :: EchelonUpTo(EchelonForm(matrix).value, |matrix[0]|, pivots, |matrix[0]|)
  {
    EchelonFromStairs(matrix, |matrix[0]|, [], 0);
  }

  // ---------------------------------------------------------------------------------
  // The lights a choice of buttons reaches

  /** The sum of row[k] * x[k] over the first n columns: how often the pressed buttons x toggle the row's light. */
  function Dot(row: seq<Bit>, x: seq<Bit>, n: nat): nat
    requires n <= |row| && n <= |x|
  {
    if n == 0 then 0 else Dot(row, x, n - 1) + row[n - 1] * x[n - 1]
  }

  /** The sum of row[k] * other[k] * x[k]: the presses both rows count. */
  function BothDot(row: seq<Bit>, other: seq<Bit>, x: seq<Bit>, n: nat): nat
    requires n <= |row| && n <= |other| && n <= |x|
  {
    if n == 0 then 0 else BothDot(row, other, x, n - 1) + row[n - 1] * other[n - 1] * x[n - 1]
  }

  /** Pressing the buttons x (one bit per button) leaves this row's light at its target, the row's last entry. */
  predicate RowHolds(row: seq<Bit>, x: seq<Bit>)
    requires |row| == |x| + 1
  {
    Dot(row, x, |x|) % 2 == row[|x|]
  }

  /** Pressing the buttons x leaves every row's light at its target. */
  predicate Solves(matrix: Matrix, x: seq<Bit>)
    requires HasWidth(matrix, |x| + 1)
  {
    forall i :: 0 <= i < |matrix| ==> RowHolds(matrix[i], x)
  }

  lemma XorBit(a: Bit, b: Bit, c: Bit)
    ensures Xor(a, b) * c + 2 * (a * b * c) == a * c + b * c
  {
  }

  /** The toggles of an XOR row are those of the two rows, less twice the ones they share. */
  lemma {:induction false} XorDot(row: seq<Bit>, other: seq<Bit>, x: seq<Bit>, n: nat)
    requires |row| == |other| && n <= |row| && n <= |x|
    ensures Dot(XorRows(row, other), x, n) + 2 * BothDot(row, other, x, n) == Dot(row, x, n) + Dot(other, x, n)
  {
    if n > 0 {
      XorDot(row, other, x, n - 1);
      XorBit(row[n - 1], other[n - 1], x[n - 1]);
    }
  }

  lemma ParityOfXor(d: nat, e: nat, f: nat, both: nat, target: Bit, otherTarget: Bit)
    requires f + 2 * both == d + e && e % 2 == otherTarget
    ensures f % 2 == Xor(target, otherTarget) <==> d % 2 == target
  {
  }

  /** Given the other row holds, the XOR row holds exactly when the row itself does. */
  lemma XorRowHolds(row: seq<Bit>, other: seq<Bit>, x: seq<Bit>)
    requires |row| == |x| + 1 && |other| == |x| + 1 && RowHolds(other, x)
    ensures RowHolds(XorRows(row, other), x) <==> RowHolds(row, x)
  {
    var n := |x|;
    XorDot(row, other, x, n);
    ParityOfXor(Dot(row, x, n), Dot(other, x, n), Dot(XorRows(row, other), x, n), BothDot(row, other, x, n), row[n], other[n]);
  }

  /** Swapping two rows changes no row's equation, only their order. */
  lemma SwapSameSolutions(matrix: Matrix, i: nat, j: nat, x: seq<Bit>)
    requires i < |matrix| && j < |matrix| && HasWidth(matrix, |x| + 1)
    ensures HasWidth(Swap(matrix, i, j), |x| + 1)
    ensures Solves(Swap(matrix, i, j), x) <==> Solves(matrix, x)
  {
    var m := Swap(matrix, i, j);
    if Solves(m, x) {
      forall k | 0 <= k < |matrix| ensures RowHolds(matrix[k], x) {
        if k == i {
          assert m[j] == matrix[i];
        } else if k == j {
          assert m[i] == matrix[j];
        } else {
          assert m[k] == matrix[k];
        }
      }
    }
  }

  /** XOR-ing the pivot row into rows below it keeps exactly the solutions. */
  lemma EliminatedSameSolutions(matrix: Matrix, column: nat, pivotRow: nat, x: seq<Bit>)
    requires pivotRow < |matrix| && HasWidth(matrix, |x| + 1)
    ensures HasWidth(Eliminated(matrix, column, pivotRow), |x| + 1)
    ensures Solves(Eliminated(matrix, column, pivotRow), x) <==> Solves(matrix, x)
  {
    var m := Eliminated(matrix, column, pivotRow);
    var pivot := matrix[pivotRow];
    assert m[pivotRow] == pivot;
    forall k | 0 <= k < |matrix| && RowHolds(pivot, x) ensures RowHolds(m[k], x) <==> RowHolds(matrix[k], x) {
      if k > pivotRow && HasOne(matrix[k], column) {
        XorRowHolds(matrix[k], pivot, x);
      }
    }
  }

  /** The pivot steps keep exactly the solutions. */
  lemma {:induction false} EchelonFromSameSolutions(matrix: Matrix, column: nat, pivotRow: nat, bound: nat, x: seq<Bit>)
    requires pivotRow <= |matrix| && HasWidth(matrix, |x| + 1)
    ensures HasWidth(EchelonFrom(matrix, column, pivotRow, bound), |x| + 1)
    ensures Solves(EchelonFrom(matrix, column, pivotRow, bound), x) <==> Solves(matrix, x)
    decreases bound - column
  {
    if column < bound {
      var r := FirstOneFrom(matrix, column, pivotRow);
      if r == |matrix| {
        EchelonFromSameSolutions(matrix, column + 1, pivotRow, bound, x);
      } else {
        var swapped := Swap(matrix, pivotRow, r);
        SwapSameSolutions(matrix, pivotRow, r, x);
        EliminatedSameSolutions(swapped, column, pivotRow, x);
        EchelonFromSameSolutions(Eliminated(swapped, column, pivotRow), column + 1, pivotRow + 1, bound, x);
      }
    }
  }

  /** A choice of buttons reaches the target lights of the echelon form exactly when it reaches those of the matrix. */
  lemma EchelonFormSameSolutions(matrix: Matrix, x: seq<Bit>)
    requires |matrix| > 0 && HasWidth(matrix, |x| + 1)
    ensures HasWidth(EchelonForm(matrix).value, |x| + 1)
    ensures Solves(EchelonForm(matrix).value, x) <==> Solves(matrix, x)
  {
    EchelonFromSameSolutions(matrix, 0, 0, |matrix[0]|, x);
  }

  // ---------------------------------------------------------------------------------
  // The echelon loops

  /**
    The search for the first row from the pivot row on with a 1 in the column: it swaps
    that row up, eliminates below it and moves the pivot row down by one.
   */
  method PivotColumn(matrix: Matrix, columnIndex: nat, pivotRowIndex: nat)
    returns (localMatrix: Matrix, nextPivotRowIndex: nat)
    requires pivotRowIndex <= |matrix| && forall i :: 0 <= i < |matrix| ==> columnIndex < |matrix[i]|
    ensures (localMatrix, nextPivotRowIndex) == PivotStep(matrix, columnIndex, pivotRowIndex)
  {
    localMatrix := matrix;
    nextPivotRowIndex := pivotRowIndex;
    for rowIndex := pivotRowIndex to |localMatrix|
      invariant localMatrix == matrix
      invariant forall i :: pivotRowIndex <= i < rowIndex ==> !HasOne(localMatrix[i], columnIndex)
    {
      if localMatrix[rowIndex][columnIndex] == 1 {
        assert FirstOneFrom(matrix, columnIndex, pivotRowIndex) == rowIndex;
        var pivotRowValue := localMatrix[pivotRowIndex];
        var rowWithLeadingOneValue := localMatrix[rowIndex];
        localMatrix := localMatrix[pivotRowIndex := rowWithLeadingOneValue][rowIndex := pivotRowValue];
        localMatrix := Eliminate(localMatrix, columnIndex, pivotRowIndex);
        nextPivotRowIndex := pivotRowIndex + 1;
        return;
      }
    }
    assert FirstOneFrom(matrix, columnIndex, pivotRowIndex) == |matrix|;
  }

  /**
    `getGaussianEchelonForm`: column by column, the first row from the pivot row on with a
    1 becomes the pivot row and the rows below it are cleared. The loop bound reads row 0,
    so a matrix without rows throws (None).
   */
  method GaussianEchelonForm(matrix: Matrix) returns (result: Option<Matrix>)
    requires |matrix| > 0 ==> HasWidth(matrix, |matrix[0]|)
    ensures result == EchelonForm(matrix)
  {
    if |matrix| == 0 {
      return None;
    }
    var localMatrix := matrix;
    var pivotRowIndex: nat := 0;
    var columnIndex: nat := 0;
    ghost var width := |matrix[0]|;
    while columnIndex < |localMatrix[0]|
      invariant |localMatrix| == |matrix| && pivotRowIndex <= |localMatrix|
      invariant HasWidth(localMatrix, width) && columnIndex <= width
      invariant EchelonFrom(localMatrix, columnIndex, pivotRowIndex, width) == EchelonFrom(matrix, 0, 0, width)
      decreases width - columnIndex
    {
      PivotStepKeepsWidth(localMatrix, columnIndex, pivotRowIndex, width);
      localMatrix, pivotRowIndex := PivotColumn(localMatrix, columnIndex, pivotRowIndex);
      columnIndex := columnIndex + 1;
    }
    return Some(localMatrix);
  }

  /**
    The first three steps for one machine: parse its line, build its matrix and bring the
    matrix to echelon form. A line without lights gives a matrix without rows, which throws.
   */
  method MachineEchelonForm(machine: string) returns (result: Option<Matrix>)
    ensures result == EchelonForm(GaussianMatrixOf(GetMachineData(machine)))
    ensures result.None? <==> |GetMachineData(machine).lightIndicators| == 0
  {
    var machineData := GetMachineData(machine);
    var matrix := GaussianMatrix(machineData);
    result := GaussianEchelonForm(matrix);
  }
}
