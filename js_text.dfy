/**
  The few JavaScript string and number built-ins that the puzzle scripts rely on,
  written out with the behaviour they have in JavaScript on the inputs that matter:
  `Number`, `toString`, `indexOf`, `slice`, `split`, `trim` and `split(/\s+/)`.
 */
module JsText {

  datatype Option<+T> = None | Some(value: T)

  predicate IsDigit(c: char) { '0' <= c <= '9' }

  /** A run of decimal digits, possibly empty. */
  predicate IsDigitRun(s: string) { forall i :: 0 <= i < |s| ==> IsDigit(s[i]) }

  function DigitValue(c: char): (d: nat)
    requires IsDigit(c)
    ensures d < 10
  {
    (c as int) - ('0' as int)
  }

  function DigitChar(d: nat): (c: char)
    requires d < 10
    ensures IsDigit(c) && DigitValue(c) == d
  {
    ('0' as int + d) as char
  }

  /** Value of a digit run read most significant digit first; the empty run is 0. */
  function DecimalValue(s: string): nat
    requires IsDigitRun(s)
  {
    if |s| == 0 then 0 else 10 * DecimalValue(s[..|s| - 1]) + DigitValue(s[|s| - 1])
  }

  /**
    JavaScript `Number(s)` on strings: a run of decimal digits gives its value (so
    `Number("")` is 0 and leading zeros are ignored); anything else is NaN, written None.
   */
  function Number(s: string): (r: Option<nat>)
    ensures r.Some? <==> IsDigitRun(s)
  {
    if IsDigitRun(s) then Some(DecimalValue(s)) else None
  }

  /** JavaScript `n.toString()` for a non-negative integer: decimal, no leading zero. */
  function DecimalString(n: nat): (s: string)
    ensures |s| >= 1 && IsDigitRun(s)
    ensures s[0] == '0' ==> n == 0
  {
    if n < 10 then [DigitChar(n)] else DecimalString(n / 10) + [DigitChar(n % 10)]
  }

  /** Reading back what `toString` wrote gives the number again. */
  lemma {:induction false} NumberOfDecimalString(n: nat)
    ensures Number(DecimalString(n)) == Some(n)
  {
    var s := DecimalString(n);
    if n >= 10 {
      NumberOfDecimalString(n / 10);
      var t := DecimalString(n / 10);
      assert s == t + [DigitChar(n % 10)];
      assert s[..|s| - 1] == t;
      assert DecimalValue(s) == 10 * DecimalValue(t) + n % 10;
    }
  }

  /** 10 to the power k. */
  function Pow10(k: nat): (p: nat)
    ensures p >= 1
  {
    if k == 0 then 1 else 10 * Pow10(k - 1)
  }

  /** `s.indexOf(c)`: the first position of c, or -1 when c does not occur. */
  function IndexOf(s: string, c: char): (i: int)
    ensures -1 <= i < |s|
    ensures i == -1 <==> c !in s
    ensures i >= 0 ==> s[i] == c && forall k :: 0 <= k < i ==> s[k] != c
  {
    if |s| == 0 then -1
    else if s[0] == c then 0
    else var j := IndexOf(s[1..], c); if j == -1 then -1 else j + 1
  }

  /** `s.indexOf(c, from)`: the first position at or after from holding c, or -1. */
  function IndexOfFrom(s: string, c: char, from: nat): (i: int)
    ensures i == -1 || (from <= i < |s| && s[i] == c)
    ensures forall k :: from <= k < |s| && (i == -1 || k < i) ==> s[k] != c
    decreases |s| - from
  {
    if from >= |s| then -1 else if s[from] == c then from else IndexOfFrom(s, c, from + 1)
  }

  /** Searching from the start is `indexOf` without a start position. */
  lemma IndexOfFromStart(s: string, c: char)
    ensures IndexOfFrom(s, c, 0) == IndexOf(s, c)
  {
    var i := IndexOfFrom(s, c, 0);
    if i == -1 {
      assert forall k :: 0 <= k < |s| ==> s[k] != c;
    } else {
      assert forall k :: 0 <= k < i ==> s[..i][k] == s[k];
    }
  }

  /** Clamps a `slice` argument as JavaScript does: negative counts from the end. */
  function SliceIndex(len: nat, k: int): (r: nat)
    ensures r <= len
  {
    if k < 0 then (if len + k < 0 then 0 else len + k) else if k > len then len else k
  }

  /** `s.slice(start, end)`. */
  function Slice(s: string, start: int, end: int): (r: string)
  {
    var a, b := SliceIndex(|s|, start), SliceIndex(|s|, end);
    if a < b then Substring(s, a, b - a) else []
  }

  /** The count characters of s from position from on. */
  function Substring(s: string, from: nat, count: nat): (r: string)
    requires from + count <= |s|
    ensures |r| == count
    decreases count
  {
    if count == 0 then [] else [s[from]] + Substring(s, from + 1, count - 1)
  }

  /** Those characters are the subsequence from from to from + count. */
  lemma {:induction false} SubstringIsSubsequence(s: string, from: nat, count: nat)
    requires from + count <= |s|
    ensures Substring(s, from, count) == s[from..from + count]
    decreases count
  {
    if count > 0 {
      SubstringIsSubsequence(s, from + 1, count - 1);
      assert s[from..from + count] == [s[from]] + s[from + 1..from + count];
    }
  }

  /** A slice between two positions in range is the subsequence between them. */
  lemma SliceInRange(s: string, start: int, end: int)
    requires 0 <= start <= end <= |s|
    ensures Slice(s, start, end) == s[start..end]
  {
    assert SliceIndex(|s|, start) == start && SliceIndex(|s|, end) == end;
    SubstringIsSubsequence(s, start, end - start);
  }

  /** Position by position, a slice between two positions in range reads the string from start on. */
  lemma SliceAt(s: string, start: int, end: int)
    requires 0 <= start <= end <= |s|
    ensures |Slice(s, start, end)| == end - start
    ensures forall k :: 0 <= k < end - start ==> Slice(s, start, end)[k] == s[start + k]
  {
    SliceInRange(s, start, end);
  }

  /**
    `s.split(sep)` with a one-character separator: the pieces between separators, an
    empty piece on either side of a separator at an end or of two in a row.
   */
  function Split(s: string, sep: char): (pieces: seq<string>)
    ensures |pieces| >= 1
    ensures forall i :: 0 <= i < |pieces| ==> sep !in pieces[i]
  {
    if |s| == 0 then [[]]
    else
      var rest := Split(s[1..], sep);
      if s[0] == sep then [[]] + rest else [[s[0]] + rest[0]] + rest[1..]
  }

  /** A string without the separator is one piece. */
  lemma {:induction false} SplitWithoutSeparator(s: string, sep: char)
    requires sep !in s
    ensures Split(s, sep) == [s]
  {
    if |s| > 0 {
      SplitWithoutSeparator(s[1..], sep);
      assert s == [s[0]] + s[1..];
    }
  }

  /** A piece without the separator, then the separator: that piece, then the split of the rest. */
  lemma {:induction false} SplitAfterPiece(a: string, b: string, sep: char)
    requires sep !in a
    ensures Split(a + [sep] + b, sep) == [a] + Split(b, sep)
    decreases |a|
  {
    var s := a + [sep] + b;
    if |a| == 0 {
      assert s == [sep] + b && s[1..] == b;
    } else {
      assert s[1..] == a[1..] + [sep] + b;
      SplitAfterPiece(a[1..], b, sep);
      assert a == [a[0]] + a[1..];
    }
  }

  /** `pieces.join(sep)`. */
  function Join(pieces: seq<string>, sep: char): string
  {
    if |pieces| == 0 then []
    else if |pieces| == 1 then pieces[0]
    else pieces[0] + [sep] + Join(pieces[1..], sep)
  }

  /** Joining the pieces of a split with the same separator gives back the string. */
  lemma {:induction false} JoinSplit(s: string, sep: char)
    ensures Join(Split(s, sep), sep) == s
  {
    if |s| > 0 {
      var rest := Split(s[1..], sep);
      JoinSplit(s[1..], sep);
      assert s == [s[0]] + s[1..];
      if s[0] == sep {
        var p := [[]] + rest;
        assert p[1..] == rest;
        assert Join(p, sep) == [] + [sep] + Join(rest, sep);
      } else if |rest| == 1 {
        assert Join(rest, sep) == rest[0];
      } else {
        var p := [[s[0]] + rest[0]] + rest[1..];
        assert p[1..] == rest[1..];
        assert Join(p, sep) == [s[0]] + rest[0] + [sep] + Join(rest[1..], sep);
        assert Join(rest, sep) == rest[0] + [sep] + Join(rest[1..], sep);
      }
    }
  }

  /** Splitting two digit runs joined by a non-digit separator gives the two runs back. */
  lemma SplitDigitRuns(a: string, b: string, sep: char)
    requires IsDigitRun(a) && IsDigitRun(b) && !IsDigit(sep)
    ensures Split(a + [sep] + b, sep) == [a, b]
  {
    assert sep !in a by {
      forall i | 0 <= i < |a| ensures a[i] != sep { assert IsDigit(a[i]); }
    }
    assert sep !in b by {
      forall i | 0 <= i < |b| ensures b[i] != sep { assert IsDigit(b[i]); }
    }
    SplitAfterPiece(a, b, sep);
    SplitWithoutSeparator(b, sep);
  }

  /** The first occurrence in a + b when a does not hold the character. */
  lemma {:induction false} IndexOfAfter(a: string, b: string, c: char)
    requires c !in a
    ensures IndexOf(a + b, c) == if c in b then |a| + IndexOf(b, c) else -1
    decreases |a|
  {
    if |a| == 0 {
      assert a + b == b;
    } else {
      assert a[0] != c;
      assert (a + b)[1..] == a[1..] + b;
      IndexOfAfter(a[1..], b, c);
    }
  }

  /** The first occurrence in a + b when a holds the character is its first occurrence in a. */
  lemma {:induction false} IndexOfBefore(a: string, b: string, c: char)
    requires c in a
    ensures IndexOf(a + b, c) == IndexOf(a, c)
    decreases |a|
  {
    if a[0] != c {
      assert (a + b)[1..] == a[1..] + b;
      assert a == [a[0]] + a[1..];
      IndexOfBefore(a[1..], b, c);
    }
  }

  /** A character that is neither the separator nor in any piece is not in the joined string. */
  lemma {:induction false} JoinAvoids(pieces: seq<string>, sep: char, c: char)
    requires c != sep && forall i :: 0 <= i < |pieces| ==> c !in pieces[i]
    ensures c !in Join(pieces, sep)
    decreases |pieces|
  {
    if |pieces| > 1 {
      JoinAvoids(pieces[1..], sep, c);
      assert forall i :: 0 <= i < |pieces| - 1 ==> pieces[1..][i] == pieces[i + 1];
    }
  }

  /** Splitting joined pieces that do not hold the separator gives the pieces back. */
  lemma {:induction false} SplitJoin(pieces: seq<string>, sep: char)
    requires |pieces| >= 1 && forall i :: 0 <= i < |pieces| ==> sep !in pieces[i]
    ensures Split(Join(pieces, sep), sep) == pieces
    decreases |pieces|
  {
    if |pieces| == 1 {
      SplitWithoutSeparator(pieces[0], sep);
    } else {
      var rest := pieces[1..];
      assert forall i :: 0 <= i < |rest| ==> rest[i] == pieces[i + 1];
      SplitJoin(rest, sep);
      SplitAfterPiece(pieces[0], Join(rest, sep), sep);
      assert pieces == [pieces[0]] + rest;
    }
  }


  /** A join of non-empty pieces starts with the first piece's first character and ends with the last piece's last. */
  lemma {:induction false} JoinEnds(pieces: seq<string>, sep: char)
    requires |pieces| >= 1 && forall i :: 0 <= i < |pieces| ==> |pieces[i]| >= 1
    ensures var s := Join(pieces, sep);
      |s| >= 1 && s[0] == pieces[0][0] && s[|s| - 1] == pieces[|pieces| - 1][|pieces[|pieces| - 1]| - 1]
    decreases |pieces|
  {
    if |pieces| > 1 {
      var rest := pieces[1..];
      assert forall i :: 0 <= i < |rest| ==> rest[i] == pieces[i + 1];
      JoinEnds(rest, sep);
      var front, j := pieces[0] + [sep], Join(rest, sep);
      assert Join(pieces, sep) == front + j;
      assert (front + j)[0] == pieces[0][0];
      assert (front + j)[|front + j| - 1] == j[|j| - 1];
      assert rest[|rest| - 1] == pieces[|pieces| - 1];
    }
  }

  /** The white space characters of ECMAScript that occur in ASCII text. */
  predicate IsSpace(c: char)
  {
    c == ' ' || c == '\t' || c == '\n' || c == '\r' || c == '\U{0B}' || c == '\U{0C}'
  }

  /** `s.trimStart()`: the suffix left once the leading white space is dropped. */
  function TrimStart(s: string): (r: string)
    ensures |r| <= |s|
    ensures |r| > 0 ==> !IsSpace(r[0])
    ensures forall i :: 0 <= i < |s| - |r| ==> IsSpace(s[i])
  {
    if |s| > 0 && IsSpace(s[0]) then TrimStart(s[1..]) else s
  }

  /** What `trimStart` leaves is a suffix of the string. */
  lemma TrimStartSuffix(s: string)
    ensures TrimStart(s) == s[|s| - |TrimStart(s)|..]
  {
    if |s| > 0 && IsSpace(s[0]) {
      TrimStartSuffix(s[1..]);
    }
  }

  function TrimEnd(s: string): (r: string)
    ensures |r| <= |s| && r == s[..|r|]
    ensures |r| > 0 ==> !IsSpace(r[|r| - 1])
    ensures forall i :: |r| <= i < |s| ==> IsSpace(s[i])
  {
    if |s| > 0 && IsSpace(s[|s| - 1]) then TrimEnd(s[..|s| - 1]) else s
  }

  /** `s.trim()`. */
  function Trim(s: string): string
  {
    TrimEnd(TrimStart(s))
  }

  /** A string with no white space at either end trims to itself. */
  lemma TrimWord(s: string)
    requires |s| == 0 || (!IsSpace(s[0]) && !IsSpace(s[|s| - 1]))
    ensures Trim(s) == s
  {
  }

  /** One space on each side of such a string is trimmed away. */
  lemma TrimPadded(s: string)
    requires |s| >= 1 && !IsSpace(s[0]) && !IsSpace(s[|s| - 1])
    ensures Trim([' '] + s + [' ']) == s
  {
    var padded := [' '] + s + [' '];
    assert padded[1..] == s + [' '];
    assert TrimStart(padded) == s + [' '];
    assert (s + [' '])[..|s|] == s;
    assert TrimEnd(s + [' ']) == s;
  }

  /** The first position of a white space character, or |s|. */
  function FirstSpace(s: string): (i: nat)
    ensures i <= |s|
    ensures forall k :: 0 <= k < i ==> !IsSpace(s[k])
    ensures i < |s| ==> IsSpace(s[i])
  {
    if |s| == 0 || IsSpace(s[0]) then 0 else 1 + FirstSpace(s[1..])
  }

  /**
    `s.split(/\s+/)`: cut at every maximal run of white space. A leading or trailing run
    leaves an empty first or last piece, as in JavaScript.
   */
  function SplitSpaces(s: string): (pieces: seq<string>)
    ensures |pieces| >= 1
    decreases |s|
  {
    var i := FirstSpace(s);
    if i == |s| then [s] else [s[..i]] + SplitSpaces(TrimStart(s[i + 1..]))
  }

  /** The string with its white space removed. */
  function WithoutSpaces(s: string): (r: string)
    ensures forall k :: 0 <= k < |r| ==> !IsSpace(r[k])
  {
    if |s| == 0 then [] else (if IsSpace(s[0]) then [] else [s[0]]) + WithoutSpaces(s[1..])
  }

  function Concat(pieces: seq<string>): string
  {
    if |pieces| == 0 then [] else pieces[0] + Concat(pieces[1..])
  }

  lemma {:induction false} WithoutSpacesAppend(a: string, b: string)
    ensures WithoutSpaces(a + b) == WithoutSpaces(a) + WithoutSpaces(b)
  {
    if |a| > 0 {
      WithoutSpacesAppend(a[1..], b);
      assert (a + b)[1..] == a[1..] + b;
    } else {
      assert a + b == b;
    }
  }

  lemma {:induction false} WithoutSpacesOfSpaces(s: string)
    requires forall k :: 0 <= k < |s| ==> IsSpace(s[k])
    ensures WithoutSpaces(s) == []
  {
    if |s| > 0 { WithoutSpacesOfSpaces(s[1..]); }
  }

  lemma {:induction false} WithoutSpacesOfWord(s: string)
    requires forall k :: 0 <= k < |s| ==> !IsSpace(s[k])
    ensures WithoutSpaces(s) == s
  {
    if |s| > 0 { WithoutSpacesOfWord(s[1..]); }
  }

  /** One step of `split(/\s+/)`: the word before the first run, then the rest. */
  lemma SplitSpacesStep(s: string, i: nat)
    requires i == FirstSpace(s) < |s|
    ensures SplitSpaces(s) == [s[..i]] + SplitSpaces(TrimStart(s[i + 1..]))
    ensures SplitSpaces(s)[1..] == SplitSpaces(TrimStart(s[i + 1..]))
  {
  }

  /** No piece of `split(/\s+/)` holds white space. */
  lemma {:induction false} SplitSpacesNoSpace(s: string)
    ensures var p := SplitSpaces(s);
      forall j, k :: 0 <= j < |p| && 0 <= k < |p[j]| ==> !IsSpace(p[j][k])
    decreases |s|
  {
    var i := FirstSpace(s);
    if i < |s| {
      var rest := TrimStart(s[i + 1..]);
      SplitSpacesNoSpace(rest);
      SplitSpacesStep(s, i);
    }
  }

  /** Only the first and the last piece of `split(/\s+/)` can be empty. */
  lemma {:induction false} SplitSpacesInnerNonEmpty(s: string)
    ensures var p := SplitSpaces(s); forall j :: 0 < j < |p| - 1 ==> p[j] != []
    decreases |s|
  {
    var i := FirstSpace(s);
    if i < |s| {
      var rest := TrimStart(s[i + 1..]);
      SplitSpacesInnerNonEmpty(rest);
      SplitSpacesStep(s, i);
      var q := SplitSpaces(rest);
      assert |q| > 1 ==> q[0] != [] by {
        // rest starts after a whole run of white space, so its first piece is a word
        if |q| > 1 {
          var i' := FirstSpace(rest);
          SplitSpacesStep(rest, i');
        }
      }
    }
  }

  /** Trimming leading white space does not change what remains without it. */
  lemma WithoutSpacesTrimStart(t: string)
    ensures WithoutSpaces(TrimStart(t)) == WithoutSpaces(t)
  {
    var rest := TrimStart(t);
    var j := |t| - |rest|;
    TrimStartSuffix(t);
    assert t == t[..j] + rest;
    WithoutSpacesAppend(t[..j], rest);
    WithoutSpacesOfSpaces(t[..j]);
  }

  /** A first word followed by the rest, without white space. */
  lemma WithoutSpacesSplitAt(s: string, i: nat)
    requires i == FirstSpace(s) < |s|
    ensures WithoutSpaces(s) == s[..i] + WithoutSpaces(TrimStart(s[i + 1..]))
  {
    assert s == s[..i + 1] + s[i + 1..];
    assert s[..i + 1] == s[..i] + [s[i]];
    WithoutSpacesAppend(s[..i + 1], s[i + 1..]);
    WithoutSpacesAppend(s[..i], [s[i]]);
    WithoutSpacesOfWord(s[..i]);
    WithoutSpacesTrimStart(s[i + 1..]);
  }

  /** Concatenated, the pieces of `split(/\s+/)` are the string with its white space taken out. */
  lemma {:induction false} SplitSpacesConcat(s: string)
    ensures Concat(SplitSpaces(s)) == WithoutSpaces(s)
    decreases |s|
  {
    var i := FirstSpace(s);
    if i == |s| {
      WithoutSpacesOfWord(s);
      assert Concat([s]) == s + Concat([]);
    } else {
      var rest := TrimStart(s[i + 1..]);
      SplitSpacesConcat(rest);
      SplitSpacesStep(s, i);
      WithoutSpacesSplitAt(s, i);
    }
  }

  function Sum(xs: seq<int>): int
  {
    if |xs| == 0 then 0 else Sum(xs[..|xs| - 1]) + xs[|xs| - 1]
  }

  lemma {:induction false} SumAppend(xs: seq<int>, ys: seq<int>)
    ensures Sum(xs + ys) == Sum(xs) + Sum(ys)
    decreases |ys|
  {
    if |ys| == 0 {
      assert xs + ys == xs;
    } else {
      SumAppend(xs, ys[..|ys| - 1]);
      assert (xs + ys)[..|xs + ys| - 1] == xs + ys[..|ys| - 1];
    }
  }
}
